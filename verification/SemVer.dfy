/** The release gate's version comparison, against the precedence rules of SemVer 2.0.0, section 11. */
module SemVer {
  import opened Names

  /** A dot-separated field as its character codes; splitting can leave it empty. */
  type Field = Name

  datatype Version = Version(major: nat, minor: nat, patch: nat, prerelease: seq<Field>)

  /** `str.isdigit` on the characters the version pattern admits. */
  predicate IsDigits(x: Field) {
    x != [] && forall i :: 0 <= i < |x| ==> 48 <= x[i] <= 57
  }

  /** `int` of a digit field. */
  function Value(x: Field): nat
    requires forall i :: 0 <= i < |x| ==> 48 <= x[i] <= 57
  {
    if x == [] then 0 else 10 * Value(x[..|x| - 1]) + (x[|x| - 1] - 48)
  }

  function Sign(x: int, y: int): int {
    if x < y then -1 else if x > y then 1 else 0
  }

  /** The verdict on the first two fields that are not the same string. */
  function CompareFields(x: Field, y: Field): int {
    if IsDigits(x) && IsDigits(y) then Sign(Value(x), Value(y))
    else if IsDigits(x) then -1
    else if IsDigits(y) then 1
    else if Less(x, y) then -1 else 1
  }

  /** The loop over the paired fields, and the length rule after it. */
  function CompareLists(a: seq<Field>, b: seq<Field>): int {
    if a == [] || b == [] then Sign(|a|, |b|)
    else if a[0] == b[0] then CompareLists(a[1..], b[1..])
    else CompareFields(a[0], b[0])
  }

  function ComparePrerelease(a: seq<Field>, b: seq<Field>): int {
    if a == [] && b == [] then 0
    else if a == [] then 1
    else if b == [] then -1
    else CompareLists(a, b)
  }

  function Compare(v: Version, w: Version): int {
    if v.major != w.major then Sign(v.major, w.major)
    else if v.minor != w.minor then Sign(v.minor, w.minor)
    else if v.patch != w.patch then Sign(v.patch, w.patch)
    else ComparePrerelease(v.prerelease, w.prerelease)
  }

  // ---- section 11 of SemVer 2.0.0 ----

  /** Rules 4.1 to 4.3 for two identifiers. */
  predicate FieldBelow(x: Field, y: Field) {
    if IsDigits(x) then IsDigits(y) ==> Value(x) < Value(y)
    else !IsDigits(y) && Less(x, y)
  }

  predicate AgreeBefore(a: seq<Field>, b: seq<Field>, k: nat) {
    k <= |a| && k <= |b| && a[..k] == b[..k]
  }

  /** Rule 4: the first difference decides, or the larger set of fields when one list is a prefix of the other. */
  ghost predicate ListBelow(a: seq<Field>, b: seq<Field>) {
    exists k: nat :: AgreeBefore(a, b, k) && ((k == |a| && k < |b|) || (k < |a| && k < |b| && FieldBelow(a[k], b[k])))
  }

  /** Rules 2 to 4: the core numerically, a prerelease below its release, then the prerelease fields. */
  ghost predicate Below(v: Version, w: Version) {
    || v.major < w.major
    || (v.major == w.major && v.minor < w.minor)
    || (v.major == w.major && v.minor == w.minor && v.patch < w.patch)
    || (v.major == w.major && v.minor == w.minor && v.patch == w.patch
        && ((v.prerelease != [] && w.prerelease == [])
            || (v.prerelease != [] && w.prerelease != [] && ListBelow(v.prerelease, w.prerelease))))
  }

  /** Section 9: numeric identifiers carry no leading zeros. */
  predicate Canonical(x: Field) {
    IsDigits(x) && |x| > 1 ==> x[0] != 48
  }

  predicate CanonicalVersion(v: Version) {
    forall i :: 0 <= i < |v.prerelease| ==> Canonical(v.prerelease[i])
  }

  /** The branch that ends the comparison early: the first fields that differ are equal numbers. */
  ghost predicate Tied(a: seq<Field>, b: seq<Field>) {
    exists k: nat :: AgreeBefore(a, b, k) && k < |a| && k < |b| && SameNumber(a[k], b[k])
  }

  predicate SameNumber(x: Field, y: Field) {
    x != y && IsDigits(x) && IsDigits(y) && Value(x) == Value(y)
  }

  ghost predicate VersionsTied(v: Version, w: Version) {
    v.major == w.major && v.minor == w.minor && v.patch == w.patch && Tied(v.prerelease, w.prerelease)
  }

  // ---- fields ----

  lemma FieldsMatch(x: Field, y: Field)
    requires x != y
    ensures CompareFields(x, y) == -1 <==> FieldBelow(x, y)
    ensures CompareFields(x, y) == 1 <==> FieldBelow(y, x)
    ensures CompareFields(x, y) == 0 <==> SameNumber(x, y)
    ensures CompareFields(x, y) in {-1, 0, 1}
  {
    LessTotal(x, y);
    if Less(x, y) && Less(y, x) {
      LessTransitive(x, y, x);
      LessIrreflexive(x);
    }
  }

  lemma FieldBelowIrreflexive(x: Field)
    ensures !FieldBelow(x, x)
  {
    LessIrreflexive(x);
  }

  lemma FieldBelowTransitive(x: Field, y: Field, z: Field)
    requires FieldBelow(x, y) && FieldBelow(y, z)
    ensures FieldBelow(x, z)
  {
    if !IsDigits(x) {
      LessTransitive(x, y, z);
    }
  }

  lemma ValueAtLeastOne(x: Field)
    requires IsDigits(x) && x[0] != 48
    ensures Value(x) >= 1
  {
    if |x| > 1 { ValueAtLeastOne(x[..|x| - 1]); }
  }

  lemma {:induction false} CanonicalValue(x: Field, y: Field)
    requires IsDigits(x) && IsDigits(y) && Canonical(x) && Canonical(y) && Value(x) == Value(y)
    ensures x == y
  {
    var m, n := |x| - 1, |y| - 1;
    assert x == x[..m] + [x[m]] && y == y[..n] + [y[n]];
    if m > 0 { ValueAtLeastOne(x[..m]); }
    if n > 0 { ValueAtLeastOne(y[..n]); }
    if m == 0 || n == 0 {
    } else {
      CanonicalValue(x[..m], y[..n]);
    }
  }

  /** The decimal numeral of a number. */
  function Numeral(n: nat): Field {
    if n < 10 then [48 + n] else Numeral(n / 10) + [48 + n % 10]
  }

  /** Every number has a canonical numeral; `Value` reads it back, with or without leading zeros. */
  lemma {:induction false} NumeralValue(n: nat)
    ensures var x := Numeral(n);
      && IsDigits(x) && Canonical(x) && Value(x) == n && (x[0] == 48 <==> n == 0)
      && IsDigits([48] + x) && Value([48] + x) == n
  {
    if n < 10 {
      assert [48 + n][..0] == [];
      assert ([48] + [48 + n])[..1] == [48] && [48][..0] == [];
    } else {
      NumeralValue(n / 10);
      var x := Numeral(n / 10);
      assert (x + [48 + n % 10])[..|x|] == x;
      assert ([48] + (x + [48 + n % 10]))[..|x| + 1] == [48] + x;
    }
  }

  // ---- lists of fields ----

  lemma AgreeShift(a: seq<Field>, b: seq<Field>, k: nat)
    requires a != [] && b != [] && a[0] == b[0]
    ensures AgreeBefore(a[1..], b[1..], k) <==> AgreeBefore(a, b, k + 1)
  {
    if k + 1 <= |a| && k + 1 <= |b| {
      assert a[..k + 1] == [a[0]] + a[1..][..k] && b[..k + 1] == [b[0]] + b[1..][..k];
      if a[..k + 1] == b[..k + 1] {
        assert a[1..][..k] == a[..k + 1][1..] && b[1..][..k] == b[..k + 1][1..];
      }
    }
  }

  lemma AgreeHeads(a: seq<Field>, b: seq<Field>, k: nat)
    requires AgreeBefore(a, b, k) && k > 0
    ensures a[0] == b[0]
  {
    assert a[0] == a[..k][0] && b[0] == b[..k][0];
  }

  lemma BelowShift(a: seq<Field>, b: seq<Field>)
    requires a != [] && b != [] && a[0] == b[0]
    ensures ListBelow(a[1..], b[1..]) <==> ListBelow(a, b)
  {
    FieldBelowIrreflexive(a[0]);
    if ListBelow(a[1..], b[1..]) {
      var k: nat :| AgreeBefore(a[1..], b[1..], k) && ((k == |a| - 1 && k < |b| - 1)
                      || (k < |a| - 1 && k < |b| - 1 && FieldBelow(a[1..][k], b[1..][k])));
      AgreeShift(a, b, k);
      assert AgreeBefore(a, b, k + 1);
    }
    if ListBelow(a, b) {
      var k: nat :| AgreeBefore(a, b, k) && ((k == |a| && k < |b|)
                      || (k < |a| && k < |b| && FieldBelow(a[k], b[k])));
      AgreeShift(a, b, k - 1);
      assert AgreeBefore(a[1..], b[1..], k - 1);
    }
  }

  lemma TiedShift(a: seq<Field>, b: seq<Field>)
    requires a != [] && b != [] && a[0] == b[0]
    ensures Tied(a[1..], b[1..]) <==> Tied(a, b)
  {
    if Tied(a[1..], b[1..]) {
      var k: nat :| AgreeBefore(a[1..], b[1..], k) && k < |a| - 1 && k < |b| - 1 && SameNumber(a[1..][k], b[1..][k]);
      AgreeShift(a, b, k);
      assert AgreeBefore(a, b, k + 1);
    }
    if Tied(a, b) {
      var k: nat :| AgreeBefore(a, b, k) && k < |a| && k < |b| && SameNumber(a[k], b[k]);
      AgreeShift(a, b, k - 1);
      assert AgreeBefore(a[1..], b[1..], k - 1);
    }
  }

  lemma HeadsDecide(a: seq<Field>, b: seq<Field>)
    requires a != [] && b != [] && a[0] != b[0]
    ensures ListBelow(a, b) <==> FieldBelow(a[0], b[0])
    ensures Tied(a, b) <==> SameNumber(a[0], b[0])
  {
    assert AgreeBefore(a, b, 0);
    forall k: nat | AgreeBefore(a, b, k) ensures k == 0 {
      if k > 0 { AgreeHeads(a, b, k); }
    }
  }

  lemma EmptyDecides(a: seq<Field>, b: seq<Field>)
    requires a == [] || b == []
    ensures ListBelow(a, b) <==> |a| < |b|
    ensures !Tied(a, b)
  {
    assert AgreeBefore(a, b, 0);
  }

  /** The scan is the first-difference order of the standard, and returns 0 early exactly on a tie. */
  lemma {:induction false} ListsMatch(a: seq<Field>, b: seq<Field>)
    ensures CompareLists(a, b) == -1 <==> ListBelow(a, b)
    ensures CompareLists(a, b) == 1 <==> ListBelow(b, a)
    ensures CompareLists(a, b) == 0 <==> a == b || Tied(a, b)
    ensures CompareLists(a, b) in {-1, 0, 1}
  {
    if a == [] || b == [] {
      EmptyDecides(a, b);
      EmptyDecides(b, a);
    } else if a[0] == b[0] {
      ListsMatch(a[1..], b[1..]);
      BelowShift(a, b);
      BelowShift(b, a);
      TiedShift(a, b);
      assert a == [a[0]] + a[1..] && b == [b[0]] + b[1..];
    } else {
      FieldsMatch(a[0], b[0]);
      HeadsDecide(a, b);
      HeadsDecide(b, a);
    }
  }

  lemma {:induction false} ListBelowTransitive(a: seq<Field>, b: seq<Field>, c: seq<Field>)
    requires ListBelow(a, b) && ListBelow(b, c)
    ensures ListBelow(a, c)
  {
    if a == [] || b == [] || c == [] {
      if a == [] { EmptyDecides(a, b); EmptyDecides(a, c); }
      if b == [] { EmptyDecides(a, b); }
      if c == [] { EmptyDecides(b, c); }
      if a == [] && b != [] && c != [] { EmptyDecides(a, c); }
    } else if a[0] == b[0] && b[0] == c[0] {
      BelowShift(a, b);
      BelowShift(b, c);
      ListBelowTransitive(a[1..], b[1..], c[1..]);
      BelowShift(a, c);
    } else {
      FieldBelowIrreflexive(a[0]);
      if a[0] != b[0] { HeadsDecide(a, b); }
      if b[0] != c[0] { HeadsDecide(b, c); }
      if a[0] != b[0] && b[0] != c[0] { FieldBelowTransitive(a[0], b[0], c[0]); }
      HeadsDecide(a, c);
    }
  }

  // ---- versions ----

  /** `compare` follows the precedence rules on every pair of versions, and ties only on equal numbers spelled differently. */
  lemma CompareIsPrecedence(v: Version, w: Version)
    ensures Compare(v, w) == -1 <==> Below(v, w)
    ensures Compare(v, w) == 1 <==> Below(w, v)
    ensures Compare(v, w) == 0 <==> v == w || VersionsTied(v, w)
    ensures Compare(v, w) == -Compare(w, v)
  {
    ListsMatch(v.prerelease, w.prerelease);
    ListsMatch(w.prerelease, v.prerelease);
    if v.prerelease == [] || w.prerelease == [] { EmptyDecides(v.prerelease, w.prerelease); }
  }

  /** The strict order is transitive on all versions, leading zeros included. */
  lemma NewerTransitive(u: Version, v: Version, w: Version)
    requires Compare(u, v) == -1 && Compare(v, w) == -1
    ensures Compare(u, w) == -1
  {
    CompareIsPrecedence(u, v);
    CompareIsPrecedence(v, w);
    CompareIsPrecedence(u, w);
    if u.prerelease != [] && v.prerelease != [] && w.prerelease != []
       && ListBelow(u.prerelease, v.prerelease) && ListBelow(v.prerelease, w.prerelease) {
      ListBelowTransitive(u.prerelease, v.prerelease, w.prerelease);
    }
  }

  /** Without leading zeros nothing ties, so `compare` is a total order: zero only for the same version. */
  lemma CanonicalTotalOrder(v: Version, w: Version)
    requires CanonicalVersion(v) && CanonicalVersion(w)
    ensures Compare(v, w) == 0 <==> v == w
    ensures Below(v, w) || v == w || Below(w, v)
  {
    CompareIsPrecedence(v, w);
    ListsMatch(v.prerelease, w.prerelease);
    if Tied(v.prerelease, w.prerelease) {
      var a, b := v.prerelease, w.prerelease;
      var k: nat :| AgreeBefore(a, b, k) && k < |a| && k < |b| && SameNumber(a[k], b[k]);
      CanonicalValue(a[k], b[k]);
    }
  }

  /**
   With leading zeros "compares equal" is not transitive: 1.0.0-1.a and 1.0.0-1.b both compare equal to
   1.0.0-01, and differ from each other.
   */
  lemma LeadingZeroBreaksEquivalence()
    ensures var a := Version(1, 0, 0, [[49], [97]]);
            var b := Version(1, 0, 0, [[49], [98]]);
            var z := Version(1, 0, 0, [[48, 49]]);
            Compare(a, z) == 0 && Compare(z, b) == 0 && Compare(a, b) == -1
  {}
}
