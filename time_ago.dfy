/** `formatTimeAgo`: the relative-time label shown beside a last-seen time,
    as a function of the current time and the timestamp (both milliseconds). */
module TimeAgo {

  /** Whole seconds elapsed: `Math.floor((now - timestamp) / 1000)`. With a
      positive divisor Dafny's `/` rounds toward negative infinity, as
      `Math.floor` does, so a timestamp in the future gives a negative count. */
  function ElapsedSeconds(now: int, timestamp: int): int {
    (now - timestamp) / 1000
  }

  function DigitChar(d: nat): (c: char)
    requires d < 10
    ensures '0' <= c <= '9'
  {
    (('0' as int) + d) as char
  }

  /** Decimal rendering of a natural number, as a template literal prints it. */
  function NatToString(n: nat): (s: string)
    ensures |s| >= 1 && '0' <= s[0] <= '9'
    ensures forall i :: 0 <= i < |s| ==> '0' <= s[i] <= '9'
  {
    if n < 10 then [DigitChar(n)] else NatToString(n / 10) + [DigitChar(n % 10)]
  }

  /** The number a string of decimal digits denotes. */
  function DecimalValue(s: string): nat
    requires forall i :: 0 <= i < |s| ==> '0' <= s[i] <= '9'
  {
    if s == [] then 0
    else DecimalValue(s[..|s| - 1]) * 10 + ((s[|s| - 1] as int) - ('0' as int))
  }

  /** Reading the rendered number back gives the number. */
  lemma {:induction false} DecimalRoundTrip(n: nat)
    ensures DecimalValue(NatToString(n)) == n
  {
    if n >= 10 {
      DecimalRoundTrip(n / 10);
      var s := NatToString(n);
      assert s[..|s| - 1] == NatToString(n / 10);
    }
  }

  /** Different numbers render differently. */
  lemma NatToStringInjective(m: nat, n: nat)
    requires NatToString(m) == NatToString(n)
    ensures m == n
  {
    DecimalRoundTrip(m);
    DecimalRoundTrip(n);
  }

  /** The label for an elapsed time of `now - timestamp` milliseconds: each
      range of seconds has its own wording, and the number printed is the
      elapsed time rounded down to whole minutes, hours or days. */
  function FormatTimeAgo(now: int, timestamp: int): (r: string)
    ensures var d := ElapsedSeconds(now, timestamp);
      && (d < 60 ==> r == "just now")
      && (60 <= d < 3600 ==> 1 <= d / 60 <= 59 && r == NatToString(d / 60) + " min ago")
      && (3600 <= d < 86400 ==> 1 <= d / 3600 <= 23 && r == NatToString(d / 3600) + " hr ago")
      && (86400 <= d ==>
            && 1 <= d / 86400
            && r == NatToString(d / 86400) + (if d / 86400 == 1 then " day ago" else " days ago"))
  {
    var diff := ElapsedSeconds(now, timestamp);
    if diff < 60 then "just now"
    else if diff < 3600 then NatToString(diff / 60) + " min ago"
    else if diff < 86400 then NatToString(diff / 3600) + " hr ago"
    else
      var days := diff / 86400;
      NatToString(days) + " day" + (if days > 1 then "s" else "") + " ago"
  }

  /** "just now" is shown exactly when less than a minute has passed, a
      timestamp in the future included. */
  lemma JustNowIff(now: int, timestamp: int)
    ensures FormatTimeAgo(now, timestamp) == "just now" <==> now - timestamp < 60000
  {
    var d := ElapsedSeconds(now, timestamp);
    var r := FormatTimeAgo(now, timestamp);
    if d >= 60 {
      assert '0' <= r[0] <= '9';
      assert r != "just now";
    }
  }

  /** Within one bucket the label names the bucket's unit, and two elapsed
      times in the minutes range give the same label exactly when they agree
      in whole minutes. */
  lemma MinutesLabelIff(now1: int, ts1: int, now2: int, ts2: int)
    requires 60 <= ElapsedSeconds(now1, ts1) < 3600
    requires 60 <= ElapsedSeconds(now2, ts2) < 3600
    ensures FormatTimeAgo(now1, ts1) == FormatTimeAgo(now2, ts2)
        <==> ElapsedSeconds(now1, ts1) / 60 == ElapsedSeconds(now2, ts2) / 60
  {
    var a := ElapsedSeconds(now1, ts1) / 60;
    var b := ElapsedSeconds(now2, ts2) / 60;
    if FormatTimeAgo(now1, ts1) == FormatTimeAgo(now2, ts2) {
      var sa := NatToString(a);
      var sb := NatToString(b);
      assert sa + " min ago" == sb + " min ago";
      assert |sa| == |sb|;
      assert sa == (sa + " min ago")[..|sa|];
      assert sb == (sb + " min ago")[..|sb|];
      NatToStringInjective(a, b);
    }
  }
}
