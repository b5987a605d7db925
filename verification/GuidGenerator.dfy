/**
 UUID version 6 handling of packages/common/src/system/guid-generator.ts: the node part that routes
 documents to partitions, GUIDs derived from a base GUID, and the timestamp.

 The UUID library call is a parameter `newGuid`, the identifier it returns.
 */
module GuidGenerator {

  // ----- Strings -----

  /** String.prototype.substr for a non-negative start. */
  function Substr(s: string, start: nat, length: nat): (r: string)
    ensures |r| <= length
    ensures start + length <= |s| ==> r == s[start..start + length]
  {
    if start >= |s| then ""
    else if start + length >= |s| then s[start..]
    else s[start..start + length]
  }

  function WithoutDashes(s: string): string
  {
    if s == "" then ""
    else if s[0] == '-' then WithoutDashes(s[1..])
    else [s[0]] + WithoutDashes(s[1..])
  }

  /** String.prototype.replace('-', ''): drops the first dash only. */
  function WithoutFirstDash(s: string): string
  {
    if s == "" then "" else if s[0] == '-' then s[1..] else [s[0]] + WithoutFirstDash(s[1..])
  }

  predicate NoDash(s: string) { forall i :: 0 <= i < |s| ==> s[i] != '-' }

  lemma {:induction false} StrippedHasNoDash(s: string)
    ensures NoDash(WithoutDashes(s))
  {
    if s != "" {
      StrippedHasNoDash(s[1..]);
    }
  }

  lemma {:induction false} WithoutDashesConcat(a: string, b: string)
    ensures WithoutDashes(a + b) == WithoutDashes(a) + WithoutDashes(b)
  {
    if a == "" {
      assert a + b == b;
    } else {
      WithoutDashesConcat(a[1..], b);
      assert (a + b)[1..] == a[1..] + b;
      assert [a[0]] + (WithoutDashes(a[1..]) + WithoutDashes(b)) == [a[0]] + WithoutDashes(a[1..]) + WithoutDashes(b);
    }
  }

  lemma {:induction false} WithoutDashesId(s: string)
    requires NoDash(s)
    ensures WithoutDashes(s) == s
  {
    if s != "" {
      WithoutDashesId(s[1..]);
    }
  }

  lemma {:induction false} WithoutFirstDashAt(a: string, b: string)
    requires NoDash(a)
    ensures WithoutFirstDash(a + "-" + b) == a + b
  {
    if a == "" {
      assert a + "-" + b == "-" + b;
      assert a + b == b;
    } else {
      WithoutFirstDashAt(a[1..], b);
      assert (a + "-" + b)[1..] == a[1..] + "-" + b;
    }
  }

  // ----- Hexadecimal -----

  predicate IsHex(c: char) { '0' <= c <= '9' || 'a' <= c <= 'f' || 'A' <= c <= 'F' }

  predicate AllHex(s: string) { forall i :: 0 <= i < |s| ==> IsHex(s[i]) }

  function DigitValue(c: char): (r: nat)
    requires IsHex(c)
    ensures r < 16
  {
    if '0' <= c <= '9' then c as int - '0' as int
    else if 'a' <= c <= 'f' then c as int - 'a' as int + 10
    else c as int - 'A' as int + 10
  }

  function Pow16(n: nat): (r: nat)
    ensures 1 <= r
  {
    if n == 0 then 1 else 16 * Pow16(n - 1)
  }

  /** The number a hexadecimal text denotes. */
  function HexValue(s: string): nat
    requires AllHex(s)
  {
    if s == "" then 0 else DigitValue(s[0]) * Pow16(|s| - 1) + HexValue(s[1..])
  }

  /** With remainders below p, a larger leading digit makes a larger number. */
  lemma LeadingDigit(a: int, x: int, b: int, y: int, p: int)
    requires a < b && 0 <= x < p && 0 <= y
    ensures a * p + x < b * p + y
  {
    assert (a + 1) * p <= b * p;
  }

  lemma {:induction false} HexValueBound(s: string)
    requires AllHex(s)
    ensures HexValue(s) < Pow16(|s|)
  {
    if s != "" {
      HexValueBound(s[1..]);
      LeadingDigit(DigitValue(s[0]), HexValue(s[1..]), 16, 0, Pow16(|s| - 1));
    }
  }

  lemma {:induction false} Pow16Add(m: nat, n: nat)
    ensures Pow16(m + n) == Pow16(m) * Pow16(n)
  {
    if m > 0 {
      Pow16Add(m - 1, n);
      calc {
        Pow16(m + n);
        16 * Pow16(m - 1 + n);
        16 * (Pow16(m - 1) * Pow16(n));
        Pow16(m) * Pow16(n);
      }
    }
  }

  lemma {:induction false} HexValueConcat(a: string, b: string)
    requires AllHex(a) && AllHex(b)
    ensures AllHex(a + b) && HexValue(a + b) == HexValue(a) * Pow16(|b|) + HexValue(b)
  {
    if a == "" {
      assert a + b == b;
    } else {
      HexValueConcat(a[1..], b);
      assert (a + b)[1..] == a[1..] + b;
      Pow16Add(|a| - 1, |b|);
      var d, p, q, h := DigitValue(a[0]), Pow16(|a| - 1), Pow16(|b|), HexValue(a[1..]);
      assert HexValue(a + b) == d * (p * q) + (h * q + HexValue(b));
      Distribute(d, p, q, h);
    }
  }

  lemma Distribute(d: int, p: int, q: int, h: int)
    ensures d * (p * q) + h * q == (d * p + h) * q
  {
  }

  // ----- The generator's functions -----

  /** The check of the regular expression: five groups of hexadecimal digits, version digit 6. */
  predicate IsValidV6Guid(g: string)
  {
    && |g| == 36
    && g[8] == g[13] == g[18] == g[23] == '-'
    && g[14] == '6'
    && AllHex(g[0..8]) && AllHex(g[9..13]) && AllHex(g[15..18]) && AllHex(g[19..23]) && AllHex(g[24..36])
  }

  function GetGuidNode(guid: string): string
  {
    Substr(WithoutDashes(guid), 20, 12)
  }

  function CreateGuidFromBaseGuid(newGuid: string, baseGuid: string): string
  {
    Substr(newGuid, 0, 24) + GetGuidNode(baseGuid)
  }

  datatype Timestamp = Milliseconds(value: int) | UnsupportedVersion | MalformedNumber

  /** Milliseconds between 1582-10-15 and 1970-01-01. */
  const BASE_DATE: int := 12219292800000

  function GetGuidTimestamp(guid: string): Timestamp
  {
    var value := WithoutFirstDash(guid);
    if Substr(value, 13, 1) != "6" then UnsupportedVersion
    else
      var digits := Substr(value, 0, 12) + Substr(value, 14, 3);
      if AllHex(digits) then Milliseconds(HexValue(digits) / 10000 - BASE_DATE)
      else MalformedNumber
  }

  /** Character by character: dashes in four places, the version digit, and hexadecimal digits everywhere else. */
  lemma ValidByPosition(g: string)
    ensures IsValidV6Guid(g) <==>
            |g| == 36 && forall i :: 0 <= i < 36 ==>
              if i in {8, 13, 18, 23} then g[i] == '-' else if i == 14 then g[i] == '6' else IsHex(g[i])
    ensures forall c :: IsHex(c) <==> c in "0123456789abcdefABCDEF"
  {
    if |g| == 36 && forall i :: 0 <= i < 36 ==>
         if i in {8, 13, 18, 23} then g[i] == '-' else if i == 14 then g[i] == '6' else IsHex(g[i]) {
      assert g[8] == '-' && g[13] == '-' && g[18] == '-' && g[23] == '-' && g[14] == '6';
    } else if IsValidV6Guid(g) {
      forall i | 0 <= i < 36
        ensures if i in {8, 13, 18, 23} then g[i] == '-' else if i == 14 then g[i] == '6' else IsHex(g[i])
      {
        assert i < 8 ==> g[i] == g[0..8][i];
        assert 9 <= i < 13 ==> g[i] == g[9..13][i - 9];
        assert 15 <= i < 18 ==> g[i] == g[15..18][i - 15];
        assert 19 <= i < 23 ==> g[i] == g[19..23][i - 19];
        assert 24 <= i < 36 ==> g[i] == g[24..36][i - 24];
      }
    }
  }

  /** An identifier of this shape with another version digit has no timestamp. */
  lemma OtherVersions(g: string)
    requires |g| == 36 && g[8] == '-' && NoDash(g[..8])
    ensures GetGuidTimestamp(g) == UnsupportedVersion <==> g[14] != '6'
  {
    WithoutFirstDashAt(g[..8], g[9..]);
    assert g == g[..8] + "-" + g[9..];
    var value := g[..8] + g[9..];
    assert WithoutFirstDash(g) == value && Substr(value, 13, 1) == [g[14]];
  }

  // ----- The node survives derivation, whatever the base -----

  /** The node of a well-formed identifier is its last group. */
  lemma NodeOfValid(g: string)
    requires IsValidV6Guid(g)
    ensures GetGuidNode(g) == g[24..36]
  {
    StripGroups(g);
    NoDashInHex(g[24..36]);
    WithoutDashesId(g[24..36]);
    WithoutDashesConcat(g[..24], g[24..36]);
    assert g == g[..24] + g[24..36];
  }

  lemma NoDashInHex(s: string)
    requires AllHex(s)
    ensures NoDash(s)
  {
  }

  /** The first 24 characters of a well-formed identifier hold 20 digits. */
  lemma StripGroups(g: string)
    requires IsValidV6Guid(g)
    ensures WithoutDashes(g[..24]) == g[0..8] + g[9..13] + g[14..18] + g[19..23]
  {
    var a, b, c, d := g[0..8], g[9..13], g[14..18], g[19..23];
    assert c == ['6'] + g[15..18];
    NoDashInHex(a); NoDashInHex(b); NoDashInHex(g[15..18]); NoDashInHex(d);
    WithoutDashesId(a); WithoutDashesId(b); WithoutDashesId(c); WithoutDashesId(d);
    DropDashAfter(d, "");
    assert g[19..24] == d + ("-" + "");
    DropDashAfter(c, g[19..24]);
    assert g[14..24] == c + ("-" + g[19..24]);
    DropDashAfter(b, g[14..24]);
    assert g[9..24] == b + ("-" + g[14..24]);
    DropDashAfter(a, g[9..24]);
    assert g[..24] == a + ("-" + g[9..24]);
  }

  lemma DropDashAfter(group: string, rest: string)
    requires WithoutDashes(group) == group
    ensures WithoutDashes(group + ("-" + rest)) == group + WithoutDashes(rest)
  {
    WithoutDashesConcat(group, "-" + rest);
    assert ("-" + rest)[1..] == rest;
  }

  /** A GUID derived from any base string has the node of that string. */
  lemma DerivedNode(newGuid: string, baseGuid: string)
    requires IsValidV6Guid(newGuid)
    ensures GetGuidNode(CreateGuidFromBaseGuid(newGuid, baseGuid)) == GetGuidNode(baseGuid)
  {
    var node := GetGuidNode(baseGuid);
    NodeHasNoDash(baseGuid);
    StripGroups(newGuid);
    assert Substr(newGuid, 0, 24) == newGuid[..24];
    WithoutDashesConcat(newGuid[..24], node);
    WithoutDashesId(node);
    var head := WithoutDashes(newGuid[..24]);
    assert |head| == 20;
    assert (head + node)[20..] == node;
  }

  lemma NodeHasNoDash(guid: string)
    ensures NoDash(GetGuidNode(guid))
  {
    StrippedHasNoDash(guid);
  }

  /** Deriving from a valid base keeps the new identifier's timestamp and the base's node, and stays valid. */
  lemma DerivedGuid(newGuid: string, baseGuid: string)
    requires IsValidV6Guid(newGuid) && IsValidV6Guid(baseGuid)
    ensures var g := CreateGuidFromBaseGuid(newGuid, baseGuid);
            && IsValidV6Guid(g) && g == newGuid[..24] + baseGuid[24..]
            && GetGuidNode(g) == GetGuidNode(baseGuid)
            && GetGuidTimestamp(g) == GetGuidTimestamp(newGuid)
  {
    var g := CreateGuidFromBaseGuid(newGuid, baseGuid);
    NodeOfValid(baseGuid);
    assert g == newGuid[..24] + baseGuid[24..36];
    assert g[0..8] == newGuid[0..8] && g[9..13] == newGuid[9..13] && g[15..18] == newGuid[15..18];
    assert g[19..23] == newGuid[19..23] && g[24..36] == baseGuid[24..36];
    DerivedNode(newGuid, baseGuid);
    TimestampOfValid(g);
    TimestampOfValid(newGuid);
  }

  // ----- The timestamp -----

  /** The 60-bit time of a version 6 UUID, by the field layout of section 5.6 of RFC 9562. */
  function Time60(g: string): nat
    requires IsValidV6Guid(g)
  {
    HexValue(g[0..8]) * 0x1000_0000 + HexValue(g[9..13]) * 0x1000 + HexValue(g[15..18])
  }

  /** The fifteen digits of the time, in order. */
  function TimeDigits(g: string): (r: string)
    requires IsValidV6Guid(g)
    ensures |r| == 15
  {
    g[0..8] + g[9..13] + g[15..18]
  }

  lemma TimeDigitsValue(g: string)
    requires IsValidV6Guid(g)
    ensures AllHex(TimeDigits(g)) && HexValue(TimeDigits(g)) == Time60(g)
  {
    HexValueConcat(g[0..8], g[9..13]);
    HexValueConcat(g[0..8] + g[9..13], g[15..18]);
    Pow16Add(3, 4);
    assert Pow16(3) == 0x1000;
    assert Pow16(4) == 16 * Pow16(3);
  }

  /** The timestamp counts the UUID's 100-nanosecond intervals in milliseconds since 1970. */
  lemma TimestampOfValid(g: string)
    requires IsValidV6Guid(g)
    ensures GetGuidTimestamp(g) == Milliseconds(Time60(g) / 10000 - 12219292800000)
  {
    NoDashInHex(g[0..8]);
    WithoutFirstDashAt(g[0..8], g[9..]);
    assert g == g[0..8] + "-" + g[9..];
    var value := g[0..8] + g[9..];
    assert WithoutFirstDash(g) == value;
    assert value[13..14] == "6";
    assert value[0..12] == g[0..8] + g[9..13];
    assert value[14..17] == g[15..18];
    TimeDigitsValue(g);
  }

  /** Identifiers in lower case compare as strings no later than their timestamps do. */
  lemma TimestampMonotone(g: string, h: string)
    requires IsValidV6Guid(g) && IsValidV6Guid(h)
    requires LowerCase(g) && LowerCase(h)
    requires Precedes(g, h)
    ensures Time60(g) <= Time60(h)
    ensures GetGuidTimestamp(g).Milliseconds? && GetGuidTimestamp(h).Milliseconds?
    ensures GetGuidTimestamp(g).value <= GetGuidTimestamp(h).value
  {
    var k := FirstDifference(g, h);
    var s, t := TimeDigits(g), TimeDigits(h);
    TimeDigitsValue(g);
    TimeDigitsValue(h);
    assert forall i :: 0 <= i < k ==> g[i] == g[..k][i] && h[i] == h[..k][i];
    forall i: nat | i < 15
      ensures s[i] == g[TimeDigitPosition(i)] && t[i] == h[TimeDigitPosition(i)]
      ensures !('A' <= s[i] <= 'Z') && !('A' <= t[i] <= 'Z')
    {
    }
    if k >= 18 {
      assert s == t;
    } else {
      var d := if k < 8 then k else if k < 13 then k - 1 else k - 3;
      HexOrder(s, t, d);
    }
    TimestampOfValid(g);
    TimestampOfValid(h);
  }

  /** Where in the identifier a digit of the time stands. */
  function TimeDigitPosition(i: nat): nat
  {
    if i < 8 then i else if i < 12 then i + 1 else i + 3
  }

  predicate LowerCase(s: string) { forall i :: 0 <= i < |s| ==> !('A' <= s[i] <= 'Z') }

  /** Strict lexicographic order of two strings of one length. */
  ghost predicate Precedes(a: string, b: string)
    requires |a| == |b|
  {
    exists k :: DiffersAt(a, b, k)
  }

  ghost predicate DiffersAt(a: string, b: string, k: int)
    requires |a| == |b|
  {
    0 <= k < |a| && a[..k] == b[..k] && a[k] < b[k]
  }

  ghost function FirstDifference(a: string, b: string): (k: int)
    requires |a| == |b| && Precedes(a, b)
    ensures DiffersAt(a, b, k)
  {
    var k :| DiffersAt(a, b, k); k
  }

  /** For lower-case digits of one length, the text order is the numeric order. */
  lemma {:induction false} HexOrder(s: string, t: string, d: nat)
    requires |s| == |t| && AllHex(s) && AllHex(t) && LowerCase(s) && LowerCase(t)
    requires DiffersAt(s, t, d)
    ensures HexValue(s) < HexValue(t)
  {
    if d == 0 {
      HexValueBound(s[1..]);
      assert DigitValue(s[0]) < DigitValue(t[0]);
      LeadingDigit(DigitValue(s[0]), HexValue(s[1..]), DigitValue(t[0]), HexValue(t[1..]), Pow16(|s| - 1));
    } else {
      assert s[0] == s[..d][0] && t[0] == t[..d][0];
      assert s[1..][..d - 1] == s[..d][1..] && t[1..][..d - 1] == t[..d][1..];
      HexOrder(s[1..], t[1..], d - 1);
    }
  }
}
