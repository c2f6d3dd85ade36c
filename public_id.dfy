/** `extractPublicId`: the storage public id of an uploaded attachment,
    read off its URL — the path from the `chat-attachments` folder on, without
    the file extension. */
module PublicId {
  import opened Domain

  const Folder: string := "chat-attachments"

  /** `s.split(sep)` for a one-character separator: the pieces between
      separators, empty ones included; an empty string gives one empty piece. */
  function Split(s: string, sep: char): (parts: seq<string>)
    ensures |parts| >= 1
    ensures forall i :: 0 <= i < |parts| ==> sep !in parts[i]
  {
    if s == [] then [""]
    else
      var rest := Split(s[1..], sep);
      if s[0] == sep then [""] + rest
      else [[s[0]] + rest[0]] + rest[1..]
  }

  /** `parts.join(sep)`. */
  function Join(parts: seq<string>, sep: char): string
    requires |parts| >= 1
  {
    if |parts| == 1 then parts[0] else parts[0] + [sep] + Join(parts[1..], sep)
  }

  /** Joining the pieces puts the string back together. */
  lemma {:induction false} JoinSplit(s: string, sep: char)
    ensures Join(Split(s, sep), sep) == s
  {
    if s != [] {
      JoinSplit(s[1..], sep);
      var rest := Split(s[1..], sep);
      if s[0] != sep {
        if |rest| > 1 {
          assert ([[s[0]] + rest[0]] + rest[1..])[1..] == rest[1..];
        }
      }
    }
  }

  lemma {:induction false} SplitAfterPlainPrefix(p: string, x: string, sep: char)
    requires sep !in p
    ensures Split(p + x, sep) == [p + Split(x, sep)[0]] + Split(x, sep)[1..]
  {
    if p != [] {
      assert (p + x)[0] == p[0] && (p + x)[1..] == p[1..] + x;
      SplitAfterPlainPrefix(p[1..], x, sep);
      var rest := Split(p[1..] + x, sep);
      assert rest[0] == p[1..] + Split(x, sep)[0] && rest[1..] == Split(x, sep)[1..];
      assert p + x != [] && (p + x)[0] != sep;
      assert Split(p + x, sep) == [[p[0]] + rest[0]] + rest[1..];
      assert [p[0]] + (p[1..] + Split(x, sep)[0]) == p + Split(x, sep)[0];
    } else {
      assert p + x == x;
      assert p + Split(x, sep)[0] == Split(x, sep)[0];
      assert Split(x, sep) == [Split(x, sep)[0]] + Split(x, sep)[1..];
    }
  }

  /** A separator between two strings splits them apart: the pieces of the
      whole are the pieces of the left part followed by those of the right. */
  lemma {:induction false} SplitAtSeparator(x: string, y: string, sep: char)
    ensures Split(x + [sep] + y, sep) == Split(x, sep) + Split(y, sep)
  {
    if x == [] {
      assert x + [sep] + y == [sep] + y;
    } else {
      assert (x + [sep] + y)[0] == x[0] && (x + [sep] + y)[1..] == x[1..] + [sep] + y;
      SplitAtSeparator(x[1..], y, sep);
    }
  }

  /** A string without the separator is one piece. */
  lemma SplitPlain(s: string, sep: char)
    requires sep !in s
    ensures Split(s, sep) == [s]
  {
    SplitAfterPlainPrefix(s, "", sep);
    assert s + "" == s;
  }

  /** Splitting pieces that hold no separator after joining them gives the
      pieces back. */
  lemma {:induction false} SplitJoin(parts: seq<string>, sep: char)
    requires |parts| >= 1
    requires forall i :: 0 <= i < |parts| ==> sep !in parts[i]
    ensures Split(Join(parts, sep), sep) == parts
  {
    if |parts| == 1 {
      SplitAfterPlainPrefix(parts[0], "", sep);
      assert parts[0] + "" == parts[0];
    } else {
      SplitJoin(parts[1..], sep);
      var tail := [sep] + Join(parts[1..], sep);
      assert parts[0] + [sep] + Join(parts[1..], sep) == parts[0] + tail;
      SplitAfterPlainPrefix(parts[0], tail, sep);
      assert tail[1..] == Join(parts[1..], sep);
      assert Split(tail, sep) == [""] + parts[1..];
      assert parts[0] + "" == parts[0];
      assert parts == [parts[0]] + parts[1..];
    }
  }

  /** `parts.findIndex(part => part === seg)`, as an optional index. */
  function FindSegment(parts: seq<string>, seg: string): (r: Option<nat>)
    ensures r.Some? ==> r.value < |parts| && parts[r.value] == seg
    ensures r.Some? ==> forall k :: 0 <= k < r.value ==> parts[k] != seg
    ensures r.None? ==> forall k :: 0 <= k < |parts| ==> parts[k] != seg
  {
    if parts == [] then None
    else if parts[0] == seg then Some(0)
    else match FindSegment(parts[1..], seg)
      case None => None
      case Some(i) => Some(i + 1)
  }

  /** The pattern `/\.[^/.]+$/` matches at `p`: a dot followed, up to the
      end of the string, by at least one character that is neither a slash
      nor a dot. */
  predicate ExtensionAt(s: string, p: nat) {
    p < |s| - 1 && s[p] == '.' && forall k :: p < k < |s| ==> s[k] != '/' && s[k] != '.'
  }

  /** Index of the last dot. */
  function LastDot(s: string): (r: Option<nat>)
    ensures r.Some? ==> r.value < |s| && s[r.value] == '.'
    ensures r.Some? ==> forall k :: r.value < k < |s| ==> s[k] != '.'
    ensures r.None? ==> forall k :: 0 <= k < |s| ==> s[k] != '.'
  {
    if s == [] then None
    else if s[|s| - 1] == '.' then Some(|s| - 1)
    else LastDot(s[..|s| - 1])
  }

  /** `s.replace(/\.[^/.]+$/, "")`: the matched suffix is cut if there is one. */
  function StripExtension(s: string): (r: string)
    ensures forall p: nat :: ExtensionAt(s, p) ==> r == s[..p]
    ensures (forall p: nat :: !ExtensionAt(s, p)) ==> r == s
  {
    match LastDot(s)
    case None => s
    case Some(p) =>
      if p < |s| - 1 && forall k :: p < k < |s| ==> s[k] != '/' then
        assert ExtensionAt(s, p);
        s[..p]
      else
        s
  }

  /** The `/`-pieces of the URL kept as the id: from the first folder piece
      on, or only the last piece when there is none (`slice(-1)`). */
  function KeptSegments(url: string): (kept: seq<string>)
    ensures |kept| >= 1
    ensures var parts := Split(url, '/');
      match FindSegment(parts, Folder)
      case None => kept == [parts[|parts| - 1]]
      case Some(i) => kept == parts[i..] && kept[0] == Folder
  {
    var parts := Split(url, '/');
    match FindSegment(parts, Folder)
    case None => parts[|parts| - 1..]
    case Some(i) => parts[i..]
  }

  /** The whole helper. Only a URL that is not a string makes `split` throw;
      that is the `catch` branch and the only way to get `null`. */
  function ExtractPublicId(url: Option<string>): (r: Option<string>)
    ensures r.Some? <==> url.Some?
    ensures url.Some? ==> r.value == StripExtension(Join(KeptSegments(url.value), '/'))
  {
    match url
    case None => None
    case Some(u) => Some(StripExtension(Join(KeptSegments(u), '/')))
  }

  lemma {:induction false} JoinStartsWithFirst(parts: seq<string>, sep: char)
    requires |parts| >= 1
    ensures |Join(parts, sep)| >= |parts[0]| && Join(parts, sep)[..|parts[0]|] == parts[0]
  {
    if |parts| > 1 {
      assert parts[0] + [sep] + Join(parts[1..], sep) == parts[0] + ([sep] + Join(parts[1..], sep));
    }
  }

  /** Cutting the extension leaves any dot-free prefix alone. */
  lemma StripKeepsDotFreePrefix(s: string, n: nat)
    requires n <= |s|
    requires forall k :: 0 <= k < n ==> s[k] != '.'
    ensures |StripExtension(s)| >= n && StripExtension(s)[..n] == s[..n]
  {
    match LastDot(s)
    case None =>
    case Some(p) =>
      assert p >= n;
  }

  lemma FolderPrefixDotFree(j: string)
    requires |j| >= |Folder| && j[..|Folder|] == Folder
    ensures forall k :: 0 <= k < |Folder| ==> j[k] != '.'
  {
    assert forall k :: 0 <= k < |Folder| ==> j[k] == Folder[k];
  }

  /** When the URL has a folder piece, the id starts with the folder name:
      the extension cut never reaches into it, since it holds no dot. */
  lemma FolderPrefixKept(url: string)
    requires FindSegment(Split(url, '/'), Folder).Some?
    ensures var r := ExtractPublicId(Some(url)).value;
      |r| >= |Folder| && r[..|Folder|] == Folder
  {
    var kept := KeptSegments(url);
    assert kept[0] == Folder;
    var j := Join(kept, '/');
    JoinStartsWithFirst(kept, '/');
    FolderPrefixDotFree(j);
    StripKeepsDotFreePrefix(j, |Folder|);
  }

  /** Without a folder piece only the last piece is kept. */
  lemma NoFolderKeepsLast(url: string)
    requires FindSegment(Split(url, '/'), Folder).None?
    ensures ExtractPublicId(Some(url)) == Some(StripExtension(Split(url, '/')[|Split(url, '/')| - 1]))
  {
  }

  /** Only the last extension goes: `a.tar.gz` becomes `a.tar`. */
  lemma OnlyLastExtensionStripped()
    ensures StripExtension("chat-attachments/a.tar.gz") == "chat-attachments/a.tar"
  {
    var s := "chat-attachments/a.tar.gz";
    assert ExtensionAt(s, 22);
  }

  /** No suffix to cut: no dot in the last piece, or a dot at the very end. */
  lemma NothingToStrip()
    ensures StripExtension("chat-attachments/readme") == "chat-attachments/readme"
    ensures StripExtension("chat-attachments/a.") == "chat-attachments/a."
    ensures StripExtension("v1.2/file") == "v1.2/file"
  {
    var s1 := "chat-attachments/readme";
    forall p: nat | p < |s1| ensures s1[p] != '.' { }
    var s2 := "chat-attachments/a.";
    forall p: nat | p < |s2| - 1 ensures s2[p] != '.' { }
    var s3 := "v1.2/file";
    forall p: nat ensures !ExtensionAt(s3, p) {
      if p == 2 { assert s3[4] == '/'; }
    }
  }
}
