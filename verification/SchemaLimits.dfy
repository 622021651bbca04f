/**
 What the schema validation means on the values behind the bytes: bounds compare like the floats their bit patterns
 stand for, and control characters are found on code points.
 */
module SchemaLimits {
  import opened Schema
  import Digest

  // ---- floats ----

  const FRACTIONS: nat := 0x10_0000_0000_0000

  /** The magnitude of a float with sign bit clear, in units of 2^-1074: subnormal below the first exponent. */
  function Magnitude(m: nat): nat {
    if m < FRACTIONS then m else (FRACTIONS + m % FRACTIONS) * Digest.Pow2(m / FRACTIONS - 1)
  }

  /** The value of a finite float in units of 2^-1074. */
  function Value(b: Bits): int {
    if b < 0x8000_0000_0000_0000 then Magnitude(b) else 0 - Magnitude(b - 0x8000_0000_0000_0000)
  }

  lemma Next(m: nat)
    ensures Magnitude(m) < Magnitude(m + 1)
  {
    var e, f := m / FRACTIONS, m % FRACTIONS;
    if f + 1 < FRACTIONS {
      assert (m + 1) / FRACTIONS == e && (m + 1) % FRACTIONS == f + 1;
      if m >= FRACTIONS { Scale(FRACTIONS + f, FRACTIONS + f + 1, Digest.Pow2(e - 1)); }
    } else {
      assert (m + 1) / FRACTIONS == e + 1 && (m + 1) % FRACTIONS == 0;
      if m >= FRACTIONS {
        assert Digest.Pow2(e) == 2 * Digest.Pow2(e - 1);
        Scale(FRACTIONS + f, 2 * FRACTIONS, Digest.Pow2(e - 1));
        Double(FRACTIONS, Digest.Pow2(e - 1));
      } else {
        assert Digest.Pow2(0) == 1;
      }
    }
  }

  lemma Scale(a: nat, b: nat, p: nat)
    requires a < b && p > 0
    ensures a * p < b * p
  {}

  lemma Double(a: nat, p: nat)
    ensures 2 * a * p == a * (2 * p)
  {}

  lemma {:induction false} MagnitudeIncreases(m: nat, n: nat)
    requires m < n
    ensures Magnitude(m) < Magnitude(n)
  {
    Next(n - 1);
    if m == n - 1 {
    } else {
      MagnitudeIncreases(m, n - 1);
    }
  }

  lemma MagnitudeOrder(m: nat, n: nat)
    ensures Magnitude(m) <= Magnitude(n) <==> m <= n
    ensures Magnitude(m) == 0 <==> m == 0
  {
    if m < n { MagnitudeIncreases(m, n); }
    if n < m { MagnitudeIncreases(n, m); }
    assert Magnitude(0) == 0;
    if m > 0 { MagnitudeIncreases(0, m); }
  }

  /** The comparison of two bounds is that of the floats they encode; the two zeros are equal. */
  lemma OrderKeyMeaning(a: Bits, b: Bits)
    ensures OrderKey(a) <= OrderKey(b) <==> Value(a) <= Value(b)
  {
    var half := 0x8000_0000_0000_0000;
    var m, n := if a < half then a else a - half, if b < half then b else b - half;
    MagnitudeOrder(m, n);
    MagnitudeOrder(n, m);
  }

  /** The finite floats are those of magnitude below the pattern of infinity. */
  lemma FiniteMeaning(b: Bits)
    ensures IsFinite(b) <==> b % 0x8000_0000_0000_0000 < 0x7FF0_0000_0000_0000
  {}

  // ---- code points ----

  type CodePoint = c: nat | c < 0xD800 || 0xE000 <= c < 0x11_0000 witness 0

  function Utf8One(c: CodePoint): Text {
    if c < 0x80 then [c]
    else if c < 0x800 then [0xc0 + c / 64, 0x80 + c % 64]
    else if c < 0x1_0000 then [0xe0 + c / 4096, 0x80 + c / 64 % 64, 0x80 + c % 64]
    else [0xf0 + c / 262144, 0x80 + c / 4096 % 64, 0x80 + c / 64 % 64, 0x80 + c % 64]
  }

  function Utf8(cs: seq<CodePoint>): Text {
    if cs == [] then [] else Utf8One(cs[0]) + Utf8(cs[1..])
  }

  /** The control characters of Unicode, category Cc. */
  predicate IsControl(c: CodePoint) {
    c < 0x20 || 0x7f <= c <= 0x9f
  }

  predicate ControlAt(t: Text, i: nat)
    requires i < |t|
  {
    t[i] < 0x20 || t[i] == 0x7f || (t[i] == 0xc2 && i + 1 < |t| && 0x80 <= t[i + 1] <= 0x9f)
  }

  /** One code point is recognised by its first byte, whatever follows it. */
  lemma OneControl(c: CodePoint, rest: Text)
    ensures var t := Utf8One(c) + rest;
      && (ControlAt(t, 0) <==> IsControl(c))
      && forall i :: 0 < i < |Utf8One(c)| ==> !ControlAt(t, i)
  {}

  lemma SomeControl(t: Text)
    ensures HasControl(t) <==> exists i :: 0 <= i < |t| && ControlAt(t, i)
  {
    forall i | 0 <= i < |t| && ControlAt(t, i) ensures HasControl(t) {
      assert t[i] < 0x20 || t[i] == 0x7f || (t[i] == 0xc2 && i + 1 < |t| && 0x80 <= t[i + 1] <= 0x9f);
    }
    if HasControl(t) {
      var i :| 0 <= i < |t| && (t[i] < 0x20 || t[i] == 0x7f || (t[i] == 0xc2 && i + 1 < |t| && 0x80 <= t[i + 1] <= 0x9f));
      assert ControlAt(t, i);
    }
  }

  lemma ControlSplits(head: Text, rest: Text)
    requires forall i :: 0 < i < |head| ==> !ControlAt(head + rest, i)
    requires head != []
    ensures HasControl(head + rest) <==> ControlAt(head + rest, 0) || HasControl(rest)
  {
    var t := head + rest;
    SomeControl(t);
    SomeControl(rest);
    forall i | 0 <= i < |rest| ensures ControlAt(rest, i) <==> ControlAt(t, |head| + i) {}
    if i :| 0 <= i < |t| && ControlAt(t, i) && i >= |head| {
      assert ControlAt(rest, i - |head|);
    }
  }

  /** The bytes of a text show a control character exactly when one of its code points is one. */
  lemma {:induction false} ControlMeaning(cs: seq<CodePoint>)
    ensures HasControl(Utf8(cs)) <==> exists i :: 0 <= i < |cs| && IsControl(cs[i])
  {
    if cs == [] {
    } else {
      var head, rest := Utf8One(cs[0]), Utf8(cs[1..]);
      ControlMeaning(cs[1..]);
      OneControl(cs[0], rest);
      ControlSplits(head, rest);
      if i :| 0 <= i < |cs| && IsControl(cs[i]) && i > 0 { assert IsControl(cs[1..][i - 1]); }
    }
  }

  // ---- the limits ----

  predicate Printable(t: Text) {
    |t| <= 256 && !HasControl(t)
  }

  /** Exactly which schemas are valid. */
  lemma AcceptedSchemas(s: FeatureSchema)
    ensures SchemaOk(s) <==>
      && 1 <= s.version < 0x1_0000_0000 && 1 <= |s.features| <= 4096
      && (forall i, j :: 0 <= i < j < |s.features| ==> s.features[i].name != s.features[j].name)
      && forall i :: 0 <= i < |s.features| ==> AcceptedFeature(s.features[i])
  {
    forall i | 0 <= i < |s.features| ensures FeatureOk(s.features[i]) <==> AcceptedFeature(s.features[i]) {
      FeatureMeaning(s.features[i]);
    }
  }

  predicate AcceptedFeature(f: Feature) {
    && f.name != [] && Printable(f.name)
    && (f.unit.Some? ==> f.unit.value != [] && Printable(f.unit.value))
    && (f.transform.Some? ==> f.transform.value != [] && Printable(f.transform.value))
    && |f.metadata| <= 64
    && (forall i :: 0 <= i < |f.metadata| ==>
          f.metadata[i].0 != [] && Printable(f.metadata[i].0) && Printable(f.metadata[i].1))
    && (f.constraint.Some? ==> AcceptedBounds(f.constraint.value))
  }

  /** Finite bounds, and the lower one not above the upper one as floats. */
  predicate AcceptedBounds(c: Constraint) {
    && (c.min.Some? ==> c.min.value % 0x8000_0000_0000_0000 < 0x7FF0_0000_0000_0000)
    && (c.max.Some? ==> c.max.value % 0x8000_0000_0000_0000 < 0x7FF0_0000_0000_0000)
    && (c.min.Some? && c.max.Some? ==> Value(c.min.value) <= Value(c.max.value))
  }

  lemma FeatureMeaning(f: Feature)
    ensures FeatureOk(f) <==> AcceptedFeature(f)
  {
    if f.constraint.Some? { BoundsMeaning(f.constraint.value); }
  }

  lemma BoundsMeaning(c: Constraint)
    ensures ConstraintOk(c) <==> AcceptedBounds(c)
  {
    if c.min.Some? { FiniteMeaning(c.min.value); }
    if c.max.Some? { FiniteMeaning(c.max.value); }
    if c.min.Some? && c.max.Some? { OrderKeyMeaning(c.min.value, c.max.value); }
  }
}
