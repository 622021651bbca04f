/** Byte strings in their lexicographic order, and ordered sets of them. */
module Names {
  type Name = seq<nat>

  predicate Less(a: Name, b: Name) {
    if b == [] then false
    else if a == [] then true
    else if a[0] != b[0] then a[0] < b[0]
    else Less(a[1..], b[1..])
  }

  lemma {:induction false} LessIrreflexive(a: Name)
    ensures !Less(a, a)
  {
    if a == [] {
    } else {
      LessIrreflexive(a[1..]);
    }
  }

  lemma {:induction false} LessTransitive(a: Name, b: Name, c: Name)
    requires Less(a, b) && Less(b, c)
    ensures Less(a, c)
  {
    if a == [] || a[0] != b[0] || b[0] != c[0] {
    } else {
      LessTransitive(a[1..], b[1..], c[1..]);
    }
  }

  lemma {:induction false} LessTotal(a: Name, b: Name)
    ensures Less(a, b) || a == b || Less(b, a)
  {
    if a == [] || b == [] || a[0] != b[0] {
    } else {
      LessTotal(a[1..], b[1..]);
      if a[1..] == b[1..] {
        assert a == [a[0]] + a[1..] && b == [b[0]] + b[1..];
      }
    }
  }

  /** The first byte that differs decides, or the length when one name is a prefix of the other. */
  lemma {:induction false} LessMeaning(a: Name, b: Name)
    ensures Less(a, b) <==> exists k: nat :: DecidesAt(a, b, k)
  {
    if a == [] || b == [] || a[0] != b[0] {
      if Less(a, b) { assert DecidesAt(a, b, 0); }
      forall k: nat | DecidesAt(a, b, k) ensures k == 0 && Less(a, b) {
        if k > 0 { SameHead(a, b, k); }
      }
    } else {
      LessMeaning(a[1..], b[1..]);
      forall k: nat ensures DecidesAt(a, b, k + 1) <==> DecidesAt(a[1..], b[1..], k) {
        if k + 1 <= |a| && k + 1 <= |b| {
          assert a[..k + 1] == [a[0]] + a[1..][..k] && b[..k + 1] == [b[0]] + b[1..][..k];
          assert a[1..][..k] == a[..k + 1][1..] && b[1..][..k] == b[..k + 1][1..];
        }
      }
      if k: nat :| DecidesAt(a, b, k) {
        assert k > 0;
        assert DecidesAt(a[1..], b[1..], k - 1);
      }
      if k: nat :| DecidesAt(a[1..], b[1..], k) {
        assert DecidesAt(a, b, k + 1);
      }
    }
  }

  lemma SameHead(a: Name, b: Name, k: nat)
    requires 0 < k <= |a| && k <= |b| && a[..k] == b[..k]
    ensures a[0] == b[0]
  {
    assert a[..k][0] == b[..k][0];
  }

  /** The names agree on their first `k` bytes and `a` is smaller from there on. */
  predicate DecidesAt(a: Name, b: Name, k: nat) {
    && k <= |a| && k < |b| && a[..k] == b[..k]
    && (k == |a| || a[k] < b[k])
  }

  /** Sorted and free of duplicates. */
  ghost predicate Ascending(names: seq<Name>) {
    forall i, j :: 0 <= i < j < |names| ==> Less(names[i], names[j])
  }

  lemma AscendingDistinct(names: seq<Name>)
    requires Ascending(names)
    ensures forall i, j :: 0 <= i < j < |names| ==> names[i] != names[j]
  {
    forall i, j | 0 <= i < j < |names| ensures names[i] != names[j] {
      LessIrreflexive(names[i]);
    }
  }

  /** Ordered-set insertion. */
  function Insert(names: seq<Name>, n: Name): (r: seq<Name>)
    ensures forall x :: x in r <==> x in names || x == n
  {
    if names == [] then [n]
    else
      var last := names[|names| - 1];
      assert names == names[..|names| - 1] + [last];
      if last == n then names
      else if Less(last, n) then names + [n]
      else Insert(names[..|names| - 1], n) + [last]
  }

  lemma {:induction false} InsertAscending(names: seq<Name>, n: Name)
    requires Ascending(names)
    ensures Ascending(Insert(names, n))
  {
    if names == [] {
    } else {
      var k := |names| - 1;
      var last := names[k];
      LessTotal(last, n);
      if last != n {
        if Less(last, n) {
          forall i | 0 <= i < |names| ensures Less(names[i], n) {
            if i < k { LessTransitive(names[i], last, n); }
          }
        } else {
          InsertAscending(names[..k], n);
          var r := Insert(names[..k], n);
          forall i | 0 <= i < |r| ensures Less(r[i], last) {
            assert r[i] in r;
          }
        }
      }
    }
  }

  /** Collecting names into an ordered set. */
  function Collect(names: seq<Name>): (r: seq<Name>)
    ensures forall x :: x in r <==> x in names
  {
    if names == [] then [] else
      assert names == names[..|names| - 1] + [names[|names| - 1]];
      Insert(Collect(names[..|names| - 1]), names[|names| - 1])
  }

  lemma {:induction false} CollectAscending(names: seq<Name>)
    ensures Ascending(Collect(names))
  {
    if names == [] {
    } else {
      CollectAscending(names[..|names| - 1]);
      InsertAscending(Collect(names[..|names| - 1]), names[|names| - 1]);
    }
  }

  function Take(names: seq<Name>, limit: nat): (r: seq<Name>)
    ensures |r| <= limit && forall x :: x in r ==> x in names
  {
    if |names| <= limit then names else names[..limit]
  }

  // ---- the smallest names of a list ----

  /** What an event keeps of the names it is given: collected, ordered, and cut at the limit. */
  function Smallest(names: seq<Name>, limit: nat): seq<Name> {
    Take(Collect(names), limit)
  }

  /** The cut keeps the smallest names: all of them, or `limit` of them below every other. */
  lemma SmallestMeaning(names: seq<Name>, limit: nat)
    ensures var r := Smallest(names, limit);
      && Ascending(r) && |r| <= limit && (forall x :: x in r ==> x in names)
      && (forall x, y :: x in r && y in names && y !in r ==> Less(x, y) && |r| == limit)
  {
    var all, r := Collect(names), Smallest(names, limit);
    CollectAscending(names);
    forall x, y | x in r && y in names && y !in r ensures Less(x, y) && |r| == limit {
      var i :| 0 <= i < |r| && r[i] == x;
      assert y in all;
      var j :| 0 <= j < |all| && all[j] == y;
      assert forall k :: 0 <= k < |r| ==> r[k] == all[k] && r[k] in r;
    }
  }

  /** A sorted list is determined by its members. */
  lemma {:induction false} AscendingUnique(a: seq<Name>, b: seq<Name>)
    requires Ascending(a) && Ascending(b) && forall x :: x in a <==> x in b
    ensures a == b
  {
    if a == [] {
      assert forall i :: 0 <= i < |b| ==> b[i] in b;
    } else {
      assert a[0] in b;
      var m, n := |a| - 1, |b| - 1;
      LastsAgree(a, b);
      AscendingDistinct(a);
      AscendingDistinct(b);
      forall x ensures x in a[..m] <==> x in b[..n] {
        InitMember(a, x);
        InitMember(b, x);
      }
      AscendingUnique(a[..m], b[..n]);
      assert a == a[..m] + [a[m]] && b == b[..n] + [b[n]];
    }
  }

  lemma InitMember(a: seq<Name>, x: Name)
    requires a != [] && forall i, j :: 0 <= i < j < |a| ==> a[i] != a[j]
    ensures x in a[..|a| - 1] <==> x in a && x != a[|a| - 1]
  {
    if x in a && x != a[|a| - 1] {
      var i :| 0 <= i < |a| && a[i] == x;
      assert a[..|a| - 1][i] == x;
    }
  }

  lemma LastsAgree(a: seq<Name>, b: seq<Name>)
    requires Ascending(a) && Ascending(b) && a != [] && b != [] && forall x :: x in a <==> x in b
    ensures a[|a| - 1] == b[|b| - 1]
  {
    var x, y := a[|a| - 1], b[|b| - 1];
    assert x in b && y in a;
    var i :| 0 <= i < |b| && b[i] == x;
    var j :| 0 <= j < |a| && a[j] == y;
    if x != y {
      LessTransitive(x, y, x);
      LessIrreflexive(x);
    }
  }

  /** The `i`-th of some members of a sorted list does not lie before its position `i`. */
  lemma {:induction false} PositionOf(s: seq<Name>, a: seq<Name>, i: nat) returns (p: nat)
    requires Ascending(s) && Ascending(a) && i < |a| && forall x :: x in a ==> x in s
    ensures i <= p < |s| && s[p] == a[i]
  {
    assert a[i] in s;
    p :| 0 <= p < |s| && s[p] == a[i];
    if i == 0 {
    } else {
      var q := PositionOf(s, a, i - 1);
      if p <= q {
        LessIrreflexive(a[i]);
        if p < q { LessTransitive(a[i], a[i - 1], a[i]); }
      }
    }
  }

  /** Inserting a name above the first `limit` leaves those alone. */
  lemma {:induction false} InsertAbove(s: seq<Name>, x: Name, limit: nat)
    requires Ascending(s) && limit <= |s| && (limit > 0 ==> Less(s[limit - 1], x))
    ensures |Insert(s, x)| >= limit && Insert(s, x)[..limit] == s[..limit]
  {
    if s == [] {
    } else {
      var last := s[|s| - 1];
      LessTotal(last, x);
      if last != x && !Less(last, x) {
        if limit == |s| {
          LessTransitive(last, x, last);
          LessIrreflexive(last);
        }
        InsertAbove(s[..|s| - 1], x, limit);
      }
    }
  }

  /** A name above `limit` others of the list does not reach the cut. */
  lemma DropLast(a: seq<Name>, b: seq<Name>, limit: nat)
    requires Ascending(a) && |a| > limit
    ensures Smallest(a[..|a| - 1] + b, limit) == Smallest(a + b, limit)
  {
    var n := |a| - 1;
    var s := Collect(a[..n] + b);
    CollectAscending(a[..n] + b);
    CollectAscending(a + b);
    InsertAscending(s, a[n]);
    assert a == a[..n] + [a[n]];
    AscendingUnique(Insert(s, a[n]), Collect(a + b));
    if limit > 0 {
      var p := PositionOf(s, a[..n], limit - 1);
      if limit - 1 < p { LessTransitive(s[limit - 1], s[p], a[n]); }
      InsertAbove(s, a[n], limit);
    }
  }

  lemma {:induction false} CutFirst(a: seq<Name>, b: seq<Name>, limit: nat)
    requires Ascending(a)
    ensures Smallest(Take(a, limit) + b, limit) == Smallest(a + b, limit)
  {
    if |a| <= limit {
    } else {
      CutFirst(a[..|a| - 1], b, limit);
      DropLast(a, b, limit);
      assert Take(a[..|a| - 1], limit) == Take(a, limit);
    }
  }

  /** Cutting before adding more names changes nothing after the next cut. */
  lemma SmallestAgain(a: seq<Name>, b: seq<Name>, limit: nat)
    ensures Smallest(Smallest(a, limit) + b, limit) == Smallest(a + b, limit)
  {
    CollectAscending(a);
    CutFirst(Collect(a), b, limit);
    CollectAscending(Collect(a) + b);
    CollectAscending(a + b);
    AscendingUnique(Collect(Collect(a) + b), Collect(a + b));
  }
}
