/**
 * The material from which the stable principal digest is derived: five fields, each
 * written as its length in decimal, a colon and its bytes. A reader gets exactly the
 * fields back, so two principals never have the same material.
 */
module PrincipalMaterial {
  import opened Options

  newtype Byte = b: int | 0 <= b < 256

  // A string in its UTF-8 encoding.
  type Bytes = seq<Byte>

  const COLON: Byte := 58

  datatype Principal = Principal(
    agentId: Bytes, frameworkKind: Bytes, profileName: Bytes, toolPortalProfileId: Bytes, profileAssignmentRevision: Bytes)

  predicate IsDigit(b: Byte) { 48 <= b <= 57 }

  function Digit(d: nat): Byte
    requires d < 10
  {
    48 + d as Byte
  }

  function Decimal(n: nat): (digits: Bytes)
    ensures digits != [] && forall i :: 0 <= i < |digits| ==> IsDigit(digits[i])
  {
    if n < 10 then [Digit(n)] else Decimal(n / 10) + [Digit(n % 10)]
  }

  function LengthPrefixed(value: Bytes): Bytes { Decimal(|value|) + [COLON] + value }

  function Material(fields: seq<Bytes>): Bytes {
    if fields == [] then [] else LengthPrefixed(fields[0]) + Material(fields[1..])
  }

  function CanonicalMaterial(p: Principal): Bytes {
    Material([p.agentId, p.frameworkKind, p.profileName, p.toolPortalProfileId, p.profileAssignmentRevision])
  }

  // ---------- Reading it back ----------

  function DigitValue(b: Byte): nat
    requires IsDigit(b)
  {
    b as int - 48
  }

  function Value(digits: Bytes): nat
    requires forall i :: 0 <= i < |digits| ==> IsDigit(digits[i])
  {
    if digits == [] then 0 else 10 * Value(digits[..|digits| - 1]) + DigitValue(digits[|digits| - 1])
  }

  // How many digits a text starts with.
  function DigitCount(text: Bytes): (n: nat)
    ensures n <= |text| && (n < |text| ==> !IsDigit(text[n]))
    ensures forall i :: 0 <= i < n ==> IsDigit(text[i])
  {
    if text == [] || !IsDigit(text[0]) then 0 else 1 + DigitCount(text[1..])
  }

  datatype FieldRead = FieldRead(value: Bytes, rest: Bytes)

  // Reads one field; a length that is not written the canonical way is refused.
  function ReadField(text: Bytes): Option<FieldRead> {
    var n := DigitCount(text);
    var length := Value(text[..n]);
    if n == |text| || text[n] != COLON || Decimal(length) != text[..n] || |text| - n - 1 < length then None
    else Some(FieldRead(text[n + 1..][..length], text[n + 1..][length..]))
  }

  function ReadFields(text: Bytes): Option<seq<Bytes>>
    decreases |text|
  {
    if text == [] then Some([])
    else
      var first := ReadField(text);
      if first.None? then None
      else
        var rest := ReadFields(first.value.rest);
        if rest.None? then None else Some([first.value.value] + rest.value)
  }

  lemma {:induction false} ValueOfDecimal(n: nat)
    ensures Value(Decimal(n)) == n
  {
    if n >= 10 {
      ValueOfDecimal(n / 10);
      var digits := Decimal(n);
      assert digits[..|digits| - 1] == Decimal(n / 10);
    } else {
      var digits := Decimal(n);
      assert digits[..0] == [] && Value(digits[..0]) == 0;
    }
  }

  lemma {:induction false} DigitsThenOther(digits: Bytes, other: Bytes)
    requires forall i :: 0 <= i < |digits| ==> IsDigit(digits[i])
    requires other == [] || !IsDigit(other[0])
    ensures DigitCount(digits + other) == |digits|
  {
    var text := digits + other;
    if digits == [] {
      assert text == other;
    } else {
      assert text[0] == digits[0] && text[1..] == digits[1..] + other;
      DigitsThenOther(digits[1..], other);
    }
  }

  lemma ReadsWhatWasWritten(value: Bytes, rest: Bytes)
    ensures ReadField(LengthPrefixed(value) + rest) == Some(FieldRead(value, rest))
  {
    var digits, text := Decimal(|value|), LengthPrefixed(value) + rest;
    var tail := [COLON] + value + rest;
    assert text == digits + tail;
    DigitsThenOther(digits, tail);
    ValueOfDecimal(|value|);
    assert text[..|digits|] == digits;
    assert text[|digits| + 1..] == value + rest;
  }

  lemma SplitAt(text: Bytes, n: nat)
    requires n < |text|
    ensures text == text[..n] + [text[n]] + text[n + 1..]
  {
  }

  lemma Regroup(a: Bytes, b: Bytes, c: Bytes, d: Bytes)
    ensures a + b + c + d == a + b + (c + d)
  {
  }

  lemma WroteWhatIsRead(text: Bytes)
    requires ReadField(text).Some?
    ensures LengthPrefixed(ReadField(text).value.value) + ReadField(text).value.rest == text
  {
    var n, r := DigitCount(text), ReadField(text).value;
    SplitAt(text, n);
    assert text[n + 1..] == r.value + r.rest;
    Regroup(Decimal(|r.value|), [COLON], r.value, r.rest);
  }

  lemma {:induction false} WrittenIsRead(fields: seq<Bytes>)
    ensures ReadFields(Material(fields)) == Some(fields)
  {
    if fields != [] {
      WrittenIsRead(fields[1..]);
      ReadsWhatWasWritten(fields[0], Material(fields[1..]));
      assert fields == [fields[0]] + fields[1..];
    }
  }

  lemma {:induction false} ReadIsWritten(text: Bytes, fields: seq<Bytes>)
    requires ReadFields(text) == Some(fields)
    ensures text == Material(fields)
    decreases |text|
  {
    if text != [] {
      var first := ReadField(text).value;
      WroteWhatIsRead(text);
      ReadIsWritten(first.rest, ReadFields(first.rest).value);
      assert fields[1..] == ReadFields(first.rest).value;
    }
  }

  /** A reader recovers the fields from their material, and accepts nothing but material. */
  lemma ReadIffWritten(text: Bytes, fields: seq<Bytes>)
    ensures ReadFields(text) == Some(fields) <==> text == Material(fields)
  {
    if ReadFields(text) == Some(fields) {
      ReadIsWritten(text, fields);
    }
    WrittenIsRead(fields);
  }

  /** Lists of fields with the same material are the same. */
  lemma MaterialIsInjective(a: seq<Bytes>, b: seq<Bytes>)
    requires Material(a) == Material(b)
    ensures a == b
  {
    ReadIffWritten(Material(a), a);
    ReadIffWritten(Material(b), b);
  }

  /** Read back, the canonical material is agent, framework kind, profile name, portal profile and assignment revision. */
  lemma MaterialReadsBack(p: Principal)
    ensures ReadFields(CanonicalMaterial(p))
         == Some([p.agentId, p.frameworkKind, p.profileName, p.toolPortalProfileId, p.profileAssignmentRevision])
  {
    WrittenIsRead([p.agentId, p.frameworkKind, p.profileName, p.toolPortalProfileId, p.profileAssignmentRevision]);
  }

  /** Principals that differ in any field have different material. */
  lemma PrincipalsStayApart(p: Principal, q: Principal)
    requires CanonicalMaterial(p) == CanonicalMaterial(q)
    ensures p == q
  {
    var a := [p.agentId, p.frameworkKind, p.profileName, p.toolPortalProfileId, p.profileAssignmentRevision];
    var b := [q.agentId, q.frameworkKind, q.profileName, q.toolPortalProfileId, q.profileAssignmentRevision];
    MaterialIsInjective(a, b);
    assert forall i :: 0 <= i < 5 ==> a[i] == b[i];
    assert a[0] == b[0] && a[1] == b[1] && a[2] == b[2] && a[3] == b[3] && a[4] == b[4];
  }
}
