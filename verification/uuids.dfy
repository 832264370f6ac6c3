/**
 * Record identifiers. A Foundation `UUID` is 128 bits, written here as its 32
 * hexadecimal digits (most significant first). `UuidString` is `uuid.uuidString`
 * (upper-case, grouped 8-4-4-4-12 with dashes), the form the roster uses as a
 * document key; `ParseUuid` is `UUID(uuidString:)`, which accepts exactly 36
 * characters with dashes at offsets 8, 13, 18 and 23 and hexadecimal digits of
 * either case everywhere else, and fails otherwise.
 */
module Uuids {
  import opened Optionals

  newtype Nibble = n: int | 0 <= n < 16

  type Uuid = s: seq<Nibble> | |s| == 32 witness seq(32, _ => 0 as Nibble)

  predicate IsHexChar(c: char) {
    ('0' <= c <= '9') || ('A' <= c <= 'F') || ('a' <= c <= 'f')
  }

  predicate IsUpperHexChar(c: char) {
    ('0' <= c <= '9') || ('A' <= c <= 'F')
  }

  /** The upper-case hexadecimal digit for `n`. */
  function HexDigit(n: Nibble): (c: char)
    ensures IsUpperHexChar(c)
  {
    if n < 10 then ('0' as int + n as int) as char else ('A' as int + n as int - 10) as char
  }

  /** The value of a hexadecimal digit of either case (0 for any other character). */
  function HexValue(c: char): Nibble {
    if '0' <= c <= '9' then (c as int - '0' as int) as Nibble
    else if 'A' <= c <= 'F' then (c as int - 'A' as int + 10) as Nibble
    else if 'a' <= c <= 'f' then (c as int - 'a' as int + 10) as Nibble
    else 0
  }

  predicate IsDashOffset(p: int) {
    p == 8 || p == 13 || p == 18 || p == 23
  }

  /** Offset in the 36-character text of the `i`-th hexadecimal digit. */
  function DigitOffset(i: int): int
    requires 0 <= i < 32
  {
    if i < 8 then i else if i < 12 then i + 1 else if i < 16 then i + 2 else if i < 20 then i + 3 else i + 4
  }

  /** Which hexadecimal digit sits at offset `p` of the 36-character text. */
  function DigitIndex(p: int): int
    requires 0 <= p < 36 && !IsDashOffset(p)
  {
    if p < 8 then p else if p < 13 then p - 1 else if p < 18 then p - 2 else if p < 23 then p - 3 else p - 4
  }

  /** `UUID.uuidString`: upper-case digits in 8-4-4-4-12 groups. */
  function UuidString(u: Uuid): (s: string)
    ensures IsCanonicalUuidText(s)
    ensures forall i :: 0 <= i < 32 ==> s[DigitOffset(i)] == HexDigit(u[i])
  {
    seq(36, p requires 0 <= p < 36 =>
      if IsDashOffset(p) then '-' else HexDigit(u[DigitIndex(p)]))
  }

  /** Text that `UUID(uuidString:)` accepts. */
  predicate IsUuidText(s: string) {
    |s| == 36 && forall p :: 0 <= p < 36 ==> if IsDashOffset(p) then s[p] == '-' else IsHexChar(s[p])
  }

  /** UUID text spelled the way `uuidString` spells it: every hexadecimal letter upper-case. */
  predicate IsCanonicalUuidText(s: string) {
    IsUuidText(s) && forall p :: 0 <= p < 36 && !IsDashOffset(p) ==> IsUpperHexChar(s[p])
  }

  /** `UUID(uuidString:)`: the identifier the text spells, or `None` when it is not UUID text. */
  function ParseUuid(s: string): (r: Optional<Uuid>)
    ensures r.Some? <==> IsUuidText(s)
    ensures r.Some? ==> forall i :: 0 <= i < 32 ==> HexDigit(r.wrapped[i]) == UpperChar(s[DigitOffset(i)])
  {
    if IsUuidText(s) then
      var u: Uuid := seq(32, i requires 0 <= i < 32 => HexValue(s[DigitOffset(i)]));
      Some(u)
    else None
  }

  /** Upper-casing of hexadecimal letters, the canonical spelling of a digit. */
  function UpperChar(c: char): char {
    if 'a' <= c <= 'f' then (c as int - 'a' as int + 'A' as int) as char else c
  }

  /** The key written for a record is parsed back to the record's identifier. */
  lemma ParseUuidString(u: Uuid)
    ensures ParseUuid(UuidString(u)) == Some(u)
  {
    var s := UuidString(u);
    forall p | 0 <= p < 36
      ensures if IsDashOffset(p) then s[p] == '-' else IsHexChar(s[p])
    {
    }
    assert IsUuidText(s);
    var v := ParseUuid(s).wrapped;
    forall i | 0 <= i < 32
      ensures v[i] == u[i]
    {
      assert DigitIndex(DigitOffset(i)) == i;
      assert s[DigitOffset(i)] == HexDigit(u[i]);
      assert HexValue(HexDigit(u[i])) == u[i];
    }
    assert v == u;
  }

  /** Two identifiers with the same key are the same identifier. */
  lemma UuidStringInjective(u: Uuid, w: Uuid)
    requires UuidString(u) == UuidString(w)
    ensures u == w
  {
    ParseUuidString(u);
    ParseUuidString(w);
  }

  /** Text already in canonical upper-case form is exactly the key of the identifier it parses to. */
  lemma CanonicalTextRoundTrip(s: string)
    requires IsCanonicalUuidText(s)
    ensures UuidString(ParseUuid(s).wrapped) == s
  {
    var u := ParseUuid(s).wrapped;
    var t := UuidString(u);
    forall p | 0 <= p < 36
      ensures t[p] == s[p]
    {
      if !IsDashOffset(p) {
        assert DigitOffset(DigitIndex(p)) == p;
      }
    }
  }

  /** A key that reads as `u` is `u`'s own key exactly when it is spelled canonically. */
  lemma KeyIsUuidStringIffCanonical(s: string, u: Uuid)
    requires ParseUuid(s) == Some(u)
    ensures UuidString(u) == s <==> IsCanonicalUuidText(s)
  {
    if IsCanonicalUuidText(s) {
      CanonicalTextRoundTrip(s);
    }
  }
}
