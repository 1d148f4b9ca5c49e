/**
 * Dotted-quad text for IPv4 addresses, as the UDP handler uses it: `inet_pton`
 * reads the configured peer address, `inet_ntop` and `%d` write the address, prefix
 * length and gateway into the `nmcli` command. An address is its four bytes in
 * network order (the order they have in memory and on the wire).
 */
module Ipv4Text {
  import opened Wire

  predicate IsDigit(c: char)
  {
    '0' <= c <= '9'
  }

  /** Decimal text of `n` without leading zeros (`%d`, `%u`). */
  function Decimal(n: nat): (r: string)
    ensures 1 <= |r|
    ensures forall i :: 0 <= i < |r| ==> IsDigit(r[i])
    ensures |r| > 1 ==> r[0] != '0'
    ensures n < 10 ==> |r| == 1
    ensures n < 100 ==> |r| <= 2
    ensures n < 1000 ==> |r| <= 3
    decreases n
  {
    if n < 10 then [(48 + n) as char] else Decimal(n / 10) + [(48 + n % 10) as char]
  }

  function DigitValue(c: char): nat
    requires IsDigit(c)
  {
    c as int - '0' as int
  }

  /** The value of a string of decimal digits. */
  function DecimalValue(s: string): nat
    requires forall i :: 0 <= i < |s| ==> IsDigit(s[i])
    decreases |s|
  {
    if s == [] then 0 else DecimalValue(s[..|s| - 1]) * 10 + DigitValue(s[|s| - 1])
  }

  /** Reading the decimal text of a number gives the number back. */
  lemma {:induction false} DecimalRoundTrip(n: nat)
    ensures DecimalValue(Decimal(n)) == n
    decreases n
  {
    if n >= 10 {
      var s := Decimal(n);
      DecimalRoundTrip(n / 10);
      assert s[..|s| - 1] == Decimal(n / 10);
    }
  }

  /** The text up to the first '.', and what follows that dot. */
  function Fields(s: string): (r: seq<string>)
    ensures |r| >= 1
    decreases |s|
  {
    if s == [] then [""]
    else if s[0] == '.' then [""] + Fields(s[1..])
    else var rest := Fields(s[1..]); [[s[0]] + rest[0]] + rest[1..]
  }

  /**
   * One component as `inet_pton` accepts it for AF_INET: one to three digits, no
   * leading zero unless the component is "0", and a value of at most 255.
   */
  function ParseOctet(s: string): (r: Option<byte>)
  {
    if 1 <= |s| <= 3 && (forall i :: 0 <= i < |s| ==> IsDigit(s[i])) && (|s| > 1 ==> s[0] != '0')
      && DecimalValue(s) <= 255
    then Some(DecimalValue(s) as byte)
    else None
  }

  /** `inet_pton(AF_INET, ...)`: exactly four components separated by dots. */
  function ParseIPv4(s: string): (r: Option<seq<byte>>)
    ensures r.Some? ==> |r.value| == 4
  {
    var f := Fields(s);
    if |f| == 4 && ParseOctet(f[0]).Some? && ParseOctet(f[1]).Some? && ParseOctet(f[2]).Some?
      && ParseOctet(f[3]).Some?
    then Some([ParseOctet(f[0]).value, ParseOctet(f[1]).value, ParseOctet(f[2]).value, ParseOctet(f[3]).value])
    else None
  }

  /** `inet_ntop(AF_INET, ...)`: the four bytes in decimal, joined by dots. */
  function FormatIPv4(a: seq<byte>): (r: string)
    requires |a| == 4
    ensures 7 <= |r| <= 15
  {
    Decimal(a[0] as nat) + "." + (Decimal(a[1] as nat) + "." + (Decimal(a[2] as nat) + "." + Decimal(a[3] as nat)))
  }

  lemma {:induction false} FieldsNoDot(x: string)
    requires forall i :: 0 <= i < |x| ==> x[i] != '.'
    ensures Fields(x) == [x]
    decreases |x|
  {
    if x != [] {
      FieldsNoDot(x[1..]);
      assert [x[0]] + x[1..] == x;
    }
  }

  lemma {:induction false} FieldsAfterField(x: string, rest: string)
    requires forall i :: 0 <= i < |x| ==> x[i] != '.'
    ensures Fields(x + "." + rest) == [x] + Fields(rest)
    decreases |x|
  {
    if x == [] {
      assert x + "." + rest == "." + rest;
      assert ("." + rest)[1..] == rest;
    } else {
      assert (x + "." + rest)[1..] == x[1..] + "." + rest;
      FieldsAfterField(x[1..], rest);
      assert [x[0]] + x[1..] == x;
    }
  }

  lemma {:induction false} ParseOctetOfDecimal(b: byte)
    ensures ParseOctet(Decimal(b as nat)) == Some(b)
  {
    DecimalRoundTrip(b as nat);
  }

  /** Four dot-free components joined by dots split back into those components. */
  lemma {:induction false} FieldsOfQuad(x0: string, x1: string, x2: string, x3: string)
    requires forall i :: 0 <= i < |x0| ==> x0[i] != '.'
    requires forall i :: 0 <= i < |x1| ==> x1[i] != '.'
    requires forall i :: 0 <= i < |x2| ==> x2[i] != '.'
    requires forall i :: 0 <= i < |x3| ==> x3[i] != '.'
    ensures Fields(x0 + "." + (x1 + "." + (x2 + "." + x3))) == [x0, x1, x2, x3]
  {
    FieldsNoDot(x3);
    FieldsAfterField(x2, x3);
    FieldsAfterField(x1, x2 + "." + x3);
    FieldsAfterField(x0, x1 + "." + (x2 + "." + x3));
  }

  lemma {:induction false} ParseIPv4OfFields(s: string, b: seq<byte>)
    requires |b| == 4 && |Fields(s)| == 4
    requires ParseOctet(Fields(s)[0]) == Some(b[0]) && ParseOctet(Fields(s)[1]) == Some(b[1])
    requires ParseOctet(Fields(s)[2]) == Some(b[2]) && ParseOctet(Fields(s)[3]) == Some(b[3])
    ensures ParseIPv4(s) == Some(b)
  {
    assert [b[0], b[1], b[2], b[3]] == b;
  }

  lemma {:induction false} ParseIPv4BadField(s: string, k: nat)
    requires |Fields(s)| == 4 && k < 4 && ParseOctet(Fields(s)[k]) == None
    ensures ParseIPv4(s) == None
  {
  }

  /** The text of an address splits into the decimal texts of its four bytes. */
  lemma {:induction false} FieldsOfFormat(a: seq<byte>)
    requires |a| == 4
    ensures Fields(FormatIPv4(a)) == [Decimal(a[0] as nat), Decimal(a[1] as nat), Decimal(a[2] as nat), Decimal(a[3] as nat)]
  {
    FieldsOfQuad(Decimal(a[0] as nat), Decimal(a[1] as nat), Decimal(a[2] as nat), Decimal(a[3] as nat));
  }

  /** What `inet_ntop` writes, `inet_pton` reads back as the same address. */
  lemma {:induction false} FormatParseRoundTrip(a: seq<byte>)
    requires |a| == 4
    ensures ParseIPv4(FormatIPv4(a)) == Some(a)
  {
    var s := FormatIPv4(a);
    FieldsOfFormat(a);
    ParseOctetOfDecimal(a[0]);
    ParseOctetOfDecimal(a[1]);
    ParseOctetOfDecimal(a[2]);
    ParseOctetOfDecimal(a[3]);
    ParseIPv4OfFields(s, a);
  }

  /** A well-formed address is read. */
  lemma {:induction false} ParseIPv4Accepts()
    ensures ParseIPv4("192.168.1.1") == Some([192, 168, 1, 1])
  {
    FormatParseRoundTrip([192, 168, 1, 1]);
    DecimalExamples();
    assert FormatIPv4([192, 168, 1, 1]) == "192.168.1.1";
  }

  lemma {:induction false} DecimalExamples()
    ensures Decimal(192) == "192" && Decimal(168) == "168" && Decimal(1) == "1"
  {
    assert Decimal(19) == "19";
    assert Decimal(16) == "16";
  }

  /**
   * Four components of which one is not a valid octet (more than three digits, a
   * leading zero, a value above 255, a non-digit) are refused.
   */
  lemma {:induction false} ParseIPv4RejectsBadComponent(x0: string, x1: string, x2: string, x3: string, k: nat)
    requires forall i :: 0 <= i < |x0| ==> x0[i] != '.'
    requires forall i :: 0 <= i < |x1| ==> x1[i] != '.'
    requires forall i :: 0 <= i < |x2| ==> x2[i] != '.'
    requires forall i :: 0 <= i < |x3| ==> x3[i] != '.'
    requires k < 4 && ParseOctet([x0, x1, x2, x3][k]) == None
    ensures ParseIPv4(x0 + "." + (x1 + "." + (x2 + "." + x3))) == None
  {
    FieldsOfQuad(x0, x1, x2, x3);
    ParseIPv4BadField(x0 + "." + (x1 + "." + (x2 + "." + x3)), k);
  }

  /** Three dotted components are not an address. */
  lemma {:induction false} ParseIPv4RejectsThreeComponents(x0: string, x1: string, x2: string)
    requires forall i :: 0 <= i < |x0| ==> x0[i] != '.'
    requires forall i :: 0 <= i < |x1| ==> x1[i] != '.'
    requires forall i :: 0 <= i < |x2| ==> x2[i] != '.'
    ensures ParseIPv4(x0 + "." + (x1 + "." + x2)) == None
  {
    FieldsNoDot(x2);
    FieldsAfterField(x1, x2);
    FieldsAfterField(x0, x1 + "." + x2);
  }

  /** "256" and "01" are not octets; "0" is. */
  lemma {:induction false} OctetExamples()
    ensures ParseOctet("256") == None
    ensures ParseOctet("01") == None
    ensures ParseOctet("0") == Some(0)
  {
    assert DecimalValue("256") == 256 by { assert "256"[..2] == "25"; assert "25"[..1] == "2"; }
  }
}
