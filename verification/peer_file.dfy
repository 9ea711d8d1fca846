/** The per-peer output file name (the `Client` constructors in
    backend/src/Client.cpp and backend/TCP/src/Client.cpp): an empty path
    defaults to "<IP>_<port>.dat", with both numbers in decimal. */
module PeerFile {

  predicate IsDigit(c: char) {
    '0' <= c <= '9'
  }

  /** `std::to_string` of an unsigned value: decimal, no sign, no leading zeros. */
  function NatToString(n: nat): (r: string)
    ensures |r| > 0
    ensures forall k :: 0 <= k < |r| ==> IsDigit(r[k])
    decreases n
  {
    if n < 10 then [DigitChar(n)] else NatToString(n / 10) + [DigitChar(n % 10)]
  }

  function DigitChar(d: nat): (c: char)
    requires d < 10
    ensures IsDigit(c) && c as int - '0' as int == d
  {
    ('0' as int + d) as char
  }

  /** The value of a string of decimal digits. */
  function DecimalValue(s: string): nat
    requires forall k :: 0 <= k < |s| ==> IsDigit(s[k])
  {
    if |s| == 0 then 0
    else
      assert IsDigit(s[|s| - 1]);
      DecimalValue(s[..|s| - 1]) * 10 + (s[|s| - 1] as int - '0' as int)
  }

  /** Reading the decimal text back gives the number. */
  lemma {:induction false} DecimalRoundTrip(n: nat)
    ensures DecimalValue(NatToString(n)) == n
    decreases n
  {
    if n >= 10 {
      var s := NatToString(n);
      assert s[..|s| - 1] == NatToString(n / 10);
      DecimalRoundTrip(n / 10);
    }
  }

  lemma {:induction false} NatToStringInjective(a: nat, b: nat)
    requires NatToString(a) == NatToString(b)
    ensures a == b
  {
    DecimalRoundTrip(a);
    DecimalRoundTrip(b);
  }

  function DefaultFileName(ip: nat, port: nat): string {
    NatToString(ip) + "_" + NatToString(port) + ".dat"
  }

  /** The constructor's choice of file name. */
  function FileNameFor(ip: nat, port: nat, filePath: string): (r: string)
    ensures filePath != "" ==> r == filePath
    ensures filePath == "" ==> r == DefaultFileName(ip, port)
  {
    if filePath == "" then DefaultFileName(ip, port) else filePath
  }

  /** Position of the first underscore in `s`, or |s| when there is none. */
  function FirstUnderscore(s: string): (r: nat)
    ensures r <= |s|
  {
    if |s| == 0 || s[0] == '_' then 0 else 1 + FirstUnderscore(s[1..])
  }

  lemma {:induction false} FirstUnderscoreAfterDigits(a: string, x: string)
    requires forall k :: 0 <= k < |a| ==> IsDigit(a[k])
    ensures FirstUnderscore(a + "_" + x) == |a|
    decreases |a|
  {
    if |a| > 0 {
      assert IsDigit(a[0]);
      assert (a + "_" + x)[1..] == a[1..] + "_" + x;
      FirstUnderscoreAfterDigits(a[1..], x);
    }
  }

  /** The prefix before the first '_' of "<a>_<rest>" is `a` when `a` is all
      digits. */
  lemma {:induction false} SplitAtUnderscore(a: string, x: string, b: string, y: string)
    requires forall k :: 0 <= k < |a| ==> IsDigit(a[k])
    requires forall k :: 0 <= k < |b| ==> IsDigit(b[k])
    requires a + "_" + x == b + "_" + y
    ensures a == b && x == y
  {
    var s := a + "_" + x;
    FirstUnderscoreAfterDigits(a, x);
    FirstUnderscoreAfterDigits(b, y);
    assert a == s[..|a|] == b;
    assert x == s[|a| + 1..] == y;
  }

  /** Different peers get different default files. */
  lemma {:induction false} DefaultFileNameInjective(ip1: nat, port1: nat, ip2: nat, port2: nat)
    requires DefaultFileName(ip1, port1) == DefaultFileName(ip2, port2)
    ensures ip1 == ip2 && port1 == port2
  {
    var a := NatToString(ip1);
    var b := NatToString(ip2);
    var x := NatToString(port1) + ".dat";
    var y := NatToString(port2) + ".dat";
    assert DefaultFileName(ip1, port1) == a + "_" + x;
    assert DefaultFileName(ip2, port2) == b + "_" + y;
    SplitAtUnderscore(a, x, b, y);
    assert NatToString(port1) == x[..|x| - 4] == y[..|y| - 4] == NatToString(port2);
    NatToStringInjective(ip1, ip2);
    NatToStringInjective(port1, port2);
  }
}
