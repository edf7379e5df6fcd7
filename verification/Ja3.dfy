/** The JA3 canonical string: `buildJA3` and its helpers in internal/protocol/tls/parser.go. */
module Ja3 {
  import opened Common
  import opened Decimal
  import opened Join

  const COMMA: byte := 44
  const DASH: byte := 45

  type U16 = v: int | 0 <= v < 0x1_0000

  /** The bit test of isGREASE: both low nibbles are 0xA and the two bytes are equal. */
  predicate IsGrease(v: U16) {
    v % 16 == 10 && v / 256 % 16 == 10 && v / 256 == v % 256
  }

  /** These are the sixteen values 0x0A0A, 0x1A1A, ..., 0xFAFA of section 2 of RFC 8701. */
  lemma GreaseValues(v: U16)
    ensures IsGrease(v) <==> exists k: nat {:trigger 0x1010 * k} :: k < 16 && v == 0x0A0A + 0x1010 * k
  {
    var low, high := v % 256, v / 256;
    assert v == 256 * high + low;
    if IsGrease(v) {
      var k: nat := low / 16;
      assert low == 16 * k + 10 && high == low;
      assert v == 0x0A0A + 0x1010 * k;
    }
    forall k: nat | k < 16 && v == 0x0A0A + 0x1010 * k ensures IsGrease(v) {
      assert v == 256 * (16 * k + 10) + (16 * k + 10);
      assert low == 16 * k + 10 && high == 16 * k + 10;
    }
  }

  /** filterGREASE: the subsequence of the other values. */
  function Filtered(vals: seq<U16>): seq<U16> {
    if vals == [] then [] else (if IsGrease(vals[0]) then [] else [vals[0]]) + Filtered(vals[1..])
  }

  lemma {:induction false} FilteredAppend(a: seq<U16>, b: seq<U16>)
    ensures Filtered(a + b) == Filtered(a) + Filtered(b)
  {
    if a == [] {
      assert a + b == b;
    } else {
      assert (a + b)[1..] == a[1..] + b;
      FilteredAppend(a[1..], b);
    }
  }

  method FilterGrease(vals: seq<U16>) returns (out: seq<U16>)
    ensures out == Filtered(vals)
  {
    out := [];
    for i := 0 to |vals|
      invariant out == Filtered(vals[..i])
    {
      assert vals[..i + 1] == vals[..i] + [vals[i]];
      FilteredAppend(vals[..i], [vals[i]]);
      if !IsGrease(vals[i]) { out := out + [vals[i]]; }
    }
    assert vals[..|vals|] == vals;
  }

  /** joinU16 and joinU8: decimal numerals separated by dashes. */
  function Numerals(vals: seq<nat>): (parts: seq<bytes>)
    ensures |parts| == |vals| && forall i :: 0 <= i < |vals| ==> parts[i] == Numeral(vals[i])
  {
    if vals == [] then [] else [Numeral(vals[0])] + Numerals(vals[1..])
  }

  function Dashed(vals: seq<nat>): bytes { Joined(Numerals(vals), DASH) }

  /** fmt.Sprintf per element into a slice of strings, then strings.Join. */
  method JoinNumbers(vals: seq<nat>) returns (s: bytes)
    ensures s == Dashed(vals)
  {
    var parts: seq<bytes> := [];
    for i := 0 to |vals|
      invariant |parts| == i && forall k :: 0 <= k < i ==> parts[k] == Numeral(vals[k])
    {
      parts := parts + [Numeral(vals[i])];
    }
    assert parts == Numerals(vals);
    s := Joined(parts, DASH);
  }

  datatype Hello = Hello(version: U16, ciphers: seq<U16>, extensions: seq<U16>, curves: seq<U16>,
                         pointFormats: seq<byte>)

  /** The five comma-separated fields. */
  function Fields(h: Hello): seq<bytes> {
    [Numeral(h.version), Dashed(Filtered(h.ciphers)), Dashed(Filtered(h.extensions)),
     Dashed(Filtered(h.curves)), Dashed(h.pointFormats)]
  }

  function Raw(h: Hello): bytes { Joined(Fields(h), COMMA) }

  /** buildJA3: the fields and commas written to a builder one after the other. */
  method BuildJa3(h: Hello) returns (b: bytes)
    ensures b == Raw(h)
  {
    b := Numeral(h.version) + [COMMA];
    var field := FilterGrease(h.ciphers);
    var text := JoinNumbers(field);
    b := b + text + [COMMA];
    field := FilterGrease(h.extensions);
    text := JoinNumbers(field);
    b := b + text + [COMMA];
    field := FilterGrease(h.curves);
    text := JoinNumbers(field);
    b := b + text + [COMMA];
    text := JoinNumbers(h.pointFormats);
    b := b + text;
    FiveJoined(Numeral(h.version), Dashed(Filtered(h.ciphers)), Dashed(Filtered(h.extensions)),
               Dashed(Filtered(h.curves)), Dashed(h.pointFormats));
  }

  lemma FiveJoined(a: bytes, b: bytes, c: bytes, d: bytes, e: bytes)
    ensures Joined([a, b, c, d, e], COMMA) == a + [COMMA] + b + [COMMA] + c + [COMMA] + d + [COMMA] + e
  {
    assert [a][1..] == [];
    JoinedSnoc([a], b, COMMA);
    assert [a] + [b] == [a, b];
    JoinedSnoc([a, b], c, COMMA);
    assert [a, b] + [c] == [a, b, c];
    JoinedSnoc([a, b, c], d, COMMA);
    assert [a, b, c] + [d] == [a, b, c, d];
    JoinedSnoc([a, b, c, d], e, COMMA);
    assert [a, b, c, d] + [e] == [a, b, c, d, e];
  }

  // ------------------------------------------------------------------ faithful

  lemma NoSeparatorInNumerals(vals: seq<nat>)
    ensures Free(Numerals(vals), DASH) && COMMA !in Dashed(vals)
  {
    forall i | 0 <= i < |vals| ensures DASH !in Numerals(vals)[i] && COMMA !in Numerals(vals)[i] {
      NumeralReads(vals[i]);
      assert forall k :: 0 <= k < |Numeral(vals[i])| ==> IsDigit(Numeral(vals[i])[k]);
    }
    if COMMA in Dashed(vals) { JoinedBytes(Numerals(vals), DASH, COMMA); }
  }

  lemma DashedEmpty(vals: seq<nat>)
    ensures Dashed(vals) == [] <==> vals == []
  {
    if vals != [] { NumeralReads(vals[0]); }
  }

  /** A dashed list determines its numbers. */
  lemma DashedInjective(a: seq<nat>, b: seq<nat>)
    requires Dashed(a) == Dashed(b)
    ensures a == b
  {
    DashedEmpty(a);
    DashedEmpty(b);
    if a != [] {
      NoSeparatorInNumerals(a);
      NoSeparatorInNumerals(b);
      SplitJoined(Numerals(a), DASH);
      SplitJoined(Numerals(b), DASH);
      assert Numerals(a) == Numerals(b);
      forall i | 0 <= i < |a| ensures a[i] == b[i] {
        assert Numeral(a[i]) == Numerals(a)[i] == Numerals(b)[i] == Numeral(b[i]);
        NumeralInjective(a[i], b[i]);
      }
    }
  }

  lemma FieldsSplit(h: Hello)
    ensures Split(Raw(h), COMMA) == Fields(h)
  {
    hide Numeral, Dashed, Filtered;
    NumeralReads(h.version);
    assert COMMA !in Numeral(h.version) by {
      assert forall k :: 0 <= k < |Numeral(h.version)| ==> IsDigit(Numeral(h.version)[k]);
    }
    NoSeparatorInNumerals(Filtered(h.ciphers));
    NoSeparatorInNumerals(Filtered(h.extensions));
    NoSeparatorInNumerals(Filtered(h.curves));
    NoSeparatorInNumerals(h.pointFormats);
    SplitJoined(Fields(h), COMMA);
  }

  /** A field holds numbers: dash-separated canonical numerals, and nothing at all for no numbers. */
  ghost predicate Holds(field: bytes, vals: seq<nat>) {
    if vals == [] then field == []
    else
      var parts := Split(field, 45);
      && |parts| == |vals|
      && forall i :: 0 <= i < |vals| ==> Canonical(parts[i]) && ValueOf(parts[i]) == vals[i]
  }

  lemma DashedHolds(vals: seq<nat>)
    ensures Holds(Dashed(vals), vals)
  {
    DashedEmpty(vals);
    if vals != [] {
      NoSeparatorInNumerals(vals);
      SplitJoined(Numerals(vals), 45);
      forall i | 0 <= i < |vals| ensures Canonical(Numerals(vals)[i]) && ValueOf(Numerals(vals)[i]) == vals[i] {
        NumeralReads(vals[i]);
      }
    }
  }

  /**
   The layout of the string: five parts between commas, the version, the ciphers, the extensions and the
   curves without GREASE, and the point formats, each list in wire order.
   */
  lemma RawLayout(h: Hello)
    ensures var parts := Split(Raw(h), 44);
      && |parts| == 5
      && Canonical(parts[0]) && ValueOf(parts[0]) == h.version
      && Holds(parts[1], Filtered(h.ciphers))
      && Holds(parts[2], Filtered(h.extensions))
      && Holds(parts[3], Filtered(h.curves))
      && Holds(parts[4], h.pointFormats)
  {
    hide Holds, Filtered, Dashed, Raw, Numeral, ValueOf, Canonical;
    FieldsSplit(h);
    NumeralReads(h.version);
    DashedHolds(Filtered(h.ciphers));
    DashedHolds(Filtered(h.extensions));
    DashedHolds(Filtered(h.curves));
    DashedHolds(h.pointFormats);
  }

  /** What is filtered: a value stands in the result as often as it did if it is no GREASE value, else never. */
  lemma {:induction false} FilteredCounts(vals: seq<U16>, v: U16)
    ensures multiset(Filtered(vals))[v] == if IsGrease(v) then 0 else multiset(vals)[v]
  {
    if vals != [] {
      FilteredCounts(vals[1..], v);
      assert vals == [vals[0]] + vals[1..];
    }
  }

  /** What the fingerprint depends on. */
  ghost predicate SameFingerprintInput(a: Hello, b: Hello) {
    && a.version == b.version
    && Filtered(a.ciphers) == Filtered(b.ciphers)
    && Filtered(a.extensions) == Filtered(b.extensions)
    && Filtered(a.curves) == Filtered(b.curves)
    && a.pointFormats == b.pointFormats
  }

  /** Two hellos have the same raw string exactly when they agree up to GREASE values. */
  lemma RawIsCanonical(a: Hello, b: Hello)
    ensures Raw(a) == Raw(b) <==> SameFingerprintInput(a, b)
  {
    hide Numeral, Dashed, Filtered;
    if Raw(a) == Raw(b) {
      FieldsSplit(a);
      FieldsSplit(b);
      var f, g := Fields(a), Fields(b);
      assert f[0] == g[0] && f[1] == g[1] && f[2] == g[2] && f[3] == g[3] && f[4] == g[4];
      NumeralInjective(a.version, b.version);
      DashedInjective(Filtered(a.ciphers), Filtered(b.ciphers));
      DashedInjective(Filtered(a.extensions), Filtered(b.extensions));
      DashedInjective(Filtered(a.curves), Filtered(b.curves));
      DashedInjective(a.pointFormats, b.pointFormats);
    }
  }

  /** A GREASE value inserted anywhere in a list is filtered out again. */
  lemma GreaseInsertion(a: seq<U16>, g: U16, b: seq<U16>)
    requires IsGrease(g)
    ensures Filtered(a + [g] + b) == Filtered(a + b)
  {
    assert a + [g] + b == a + ([g] + b);
    FilteredAppend(a, [g] + b);
    FilteredAppend([g], b);
    FilteredAppend(a, b);
  }

  /** So inserting GREASE in ciphers, extensions or curves changes nothing, and no other insertion is invisible. */
  lemma InsertionVisibility(h: Hello, a: seq<U16>, v: U16, b: seq<U16>)
    ensures Raw(h.(ciphers := a + [v] + b)) == Raw(h.(ciphers := a + b)) <==> IsGrease(v)
    ensures Raw(h.(extensions := a + [v] + b)) == Raw(h.(extensions := a + b)) <==> IsGrease(v)
    ensures Raw(h.(curves := a + [v] + b)) == Raw(h.(curves := a + b)) <==> IsGrease(v)
  {
    hide Raw, Fields, Filtered;
    var with, without := a + [v] + b, a + b;
    RawIsCanonical(h.(ciphers := with), h.(ciphers := without));
    RawIsCanonical(h.(extensions := with), h.(extensions := without));
    RawIsCanonical(h.(curves := with), h.(curves := without));
    if IsGrease(v) {
      GreaseInsertion(a, v, b);
    } else {
      OtherInsertion(a, v, b);
    }
  }

  lemma OtherInsertion(a: seq<U16>, v: U16, b: seq<U16>)
    requires !IsGrease(v)
    ensures |Filtered(a + [v] + b)| == |Filtered(a + b)| + 1
  {
    assert a + [v] + b == a + ([v] + b);
    FilteredAppend(a, [v] + b);
    FilteredAppend([v], b);
    FilteredAppend(a, b);
  }
}
