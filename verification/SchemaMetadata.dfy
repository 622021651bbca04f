/** The ordered metadata map: its contents, not the order of insertion, decide its entries. */
module SchemaMetadata {
  import opened Errors
  import opened Names
  import opened Schema

  /** Ordered-map insertion: overwrites an existing key, otherwise keeps the keys ascending. */
  function Put(m: seq<(Text, Text)>, key: Text, value: Text): seq<(Text, Text)> {
    if m == [] then [(key, value)]
    else
      var last := m[|m| - 1];
      if last.0 == key then m[..|m| - 1] + [(key, value)]
      else if Less(last.0, key) then m + [(key, value)]
      else Put(m[..|m| - 1], key, value) + [last]
  }

  function Lookup(m: seq<(Text, Text)>, key: Text): Option<Text> {
    if m == [] then None
    else if m[|m| - 1].0 == key then Some(m[|m| - 1].1)
    else Lookup(m[..|m| - 1], key)
  }

  lemma {:induction false} LookupAbsent(m: seq<(Text, Text)>, key: Text)
    requires forall i :: 0 <= i < |m| ==> m[i].0 != key
    ensures Lookup(m, key) == None
  {
    if m == [] {
    } else {
      LookupAbsent(m[..|m| - 1], key);
    }
  }

  lemma {:induction false} LookupFinds(m: seq<(Text, Text)>, key: Text)
    ensures Lookup(m, key).Some? ==> exists i :: 0 <= i < |m| && m[i] == (key, Lookup(m, key).value)
  {
    if m == [] || m[|m| - 1].0 == key {
    } else {
      LookupFinds(m[..|m| - 1], key);
      if Lookup(m, key).Some? {
        var i :| 0 <= i < |m| - 1 && m[..|m| - 1][i] == (key, Lookup(m, key).value);
        assert m[i] == (key, Lookup(m, key).value);
      }
    }
  }

  lemma {:induction false} PutKeys(m: seq<(Text, Text)>, key: Text, value: Text, i: nat)
    requires i < |Put(m, key, value)|
    ensures Put(m, key, value)[i].0 == key || exists j :: 0 <= j < |m| && m[j].0 == Put(m, key, value)[i].0
  {
    if m == [] {
    } else {
      var n := |m| - 1;
      if m[n].0 != key && !Less(m[n].0, key) && i < |Put(m[..n], key, value)| {
        PutKeys(m[..n], key, value, i);
        if Put(m, key, value)[i].0 != key {
          var j :| 0 <= j < n && m[..n][j].0 == Put(m, key, value)[i].0;
          assert m[j].0 == Put(m, key, value)[i].0;
        }
      } else if i < |m| {
        assert m[i].0 == Put(m, key, value)[i].0 || Put(m, key, value)[i].0 == key || i == |Put(m, key, value)| - 1;
      }
    }
  }

  lemma {:induction false} PutOrdered(m: seq<(Text, Text)>, key: Text, value: Text)
    requires Ordered(m)
    ensures Ordered(Put(m, key, value))
  {
    if m == [] {
    } else {
      var n := |m| - 1;
      var last := m[n];
      LessTotal(last.0, key);
      if last.0 == key {
      } else if Less(last.0, key) {
        forall i | 0 <= i < n ensures Less(m[i].0, key) { LessTransitive(m[i].0, last.0, key); }
      } else {
        PutOrdered(m[..n], key, value);
        var r := Put(m[..n], key, value);
        forall i | 0 <= i < |r| ensures Less(r[i].0, last.0) {
          PutKeys(m[..n], key, value, i);
          if r[i].0 != key {
            var j :| 0 <= j < n && m[..n][j].0 == r[i].0;
            assert Less(m[j].0, m[n].0);
          }
        }
      }
    }
  }

  /** A put is visible under its key and nowhere else. */
  lemma {:induction false} PutLookup(m: seq<(Text, Text)>, key: Text, value: Text, k: Text)
    requires Ordered(m)
    ensures Lookup(Put(m, key, value), k) == if k == key then Some(value) else Lookup(m, k)
  {
    if m == [] {
    } else {
      var n := |m| - 1;
      var last := m[n];
      LessTotal(last.0, key);
      if last.0 == key {
        assert Put(m, key, value)[..n] == m[..n];
      } else if Less(last.0, key) {
        assert Put(m, key, value)[..|m|] == m;
      } else {
        var r := Put(m[..n], key, value);
        assert Put(m, key, value)[..|r|] == r;
        PutLookup(m[..n], key, value, k);
        if k == last.0 { LessIrreflexive(key); }
      }
    }
  }

  /** Ordered maps with the same lookups are the same list of entries. */
  lemma {:induction false} SameLookups(a: seq<(Text, Text)>, b: seq<(Text, Text)>)
    requires Ordered(a) && Ordered(b) && forall k :: Lookup(a, k) == Lookup(b, k)
    ensures a == b
  {
    if a == [] || b == [] {
      if a != [] { LastAnswers(a); }
      if b != [] { LastAnswers(b); }
    } else {
      var n, m := |a| - 1, |b| - 1;
      LastEntryAgrees(a, b);
      forall k ensures Lookup(a[..n], k) == Lookup(b[..m], k) {
        assert Lookup(a, k) == Lookup(b, k);
        if k == a[n].0 {
          LastKeyAlone(a);
          LastKeyAlone(b);
        }
      }
      SameLookups(a[..n], b[..m]);
      assert a == a[..n] + [a[n]] && b == b[..m] + [b[m]];
    }
  }

  lemma LastAnswers(a: seq<(Text, Text)>)
    requires a != []
    ensures Lookup(a, a[|a| - 1].0) == Some(a[|a| - 1].1)
  {}

  lemma LastKeyAlone(a: seq<(Text, Text)>)
    requires Ordered(a) && a != []
    ensures Lookup(a[..|a| - 1], a[|a| - 1].0) == None
  {
    forall i | 0 <= i < |a| - 1 ensures a[i].0 != a[|a| - 1].0 { LessIrreflexive(a[i].0); }
    LookupAbsent(a[..|a| - 1], a[|a| - 1].0);
  }

  lemma LastEntryAgrees(a: seq<(Text, Text)>, b: seq<(Text, Text)>)
    requires Ordered(a) && Ordered(b) && a != [] && b != [] && forall k :: Lookup(a, k) == Lookup(b, k)
    ensures a[|a| - 1] == b[|b| - 1]
  {
    var x, y := a[|a| - 1], b[|b| - 1];
    assert Lookup(a, x.0) == Some(x.1) && Lookup(b, y.0) == Some(y.1);
    if x.0 != y.0 {
      LookedUpBelow(b, x.0);
      LookedUpBelow(a, y.0);
      LessTransitive(x.0, y.0, x.0);
      LessIrreflexive(x.0);
    }
  }

  /** A key found in an ordered map is its last key or below it. */
  lemma LookedUpBelow(m: seq<(Text, Text)>, key: Text)
    requires Ordered(m) && Lookup(m, key).Some?
    ensures m != [] && (key == m[|m| - 1].0 || Less(key, m[|m| - 1].0))
  {
    LookupFinds(m, key);
    var i :| 0 <= i < |m| && m[i] == (key, Lookup(m, key).value);
  }

  /** The map built by inserting the entries of `puts` in turn. */
  function Build(puts: seq<(Text, Text)>): seq<(Text, Text)> {
    if puts == [] then [] else
      Put(Build(puts[..|puts| - 1]), puts[|puts| - 1].0, puts[|puts| - 1].1)
  }

  lemma {:induction false} BuildSound(puts: seq<(Text, Text)>, k: Text)
    ensures Ordered(Build(puts)) && Lookup(Build(puts), k) == Lookup(puts, k)
  {
    if puts == [] {
    } else {
      var n := |puts| - 1;
      BuildSound(puts[..n], k);
      PutOrdered(Build(puts[..n]), puts[n].0, puts[n].1);
      PutLookup(Build(puts[..n]), puts[n].0, puts[n].1, k);
    }
  }

  ghost predicate DistinctKeys(puts: seq<(Text, Text)>) {
    forall i, j :: 0 <= i < j < |puts| ==> puts[i].0 != puts[j].0
  }

  lemma {:induction false} LookupMember(puts: seq<(Text, Text)>, i: nat)
    requires DistinctKeys(puts) && i < |puts|
    ensures Lookup(puts, puts[i].0) == Some(puts[i].1)
  {
    if i < |puts| - 1 { LookupMember(puts[..|puts| - 1], i); }
  }

  lemma PermutedLookup(p: seq<(Text, Text)>, q: seq<(Text, Text)>, k: Text)
    requires DistinctKeys(p) && DistinctKeys(q) && multiset(p) == multiset(q)
    ensures Lookup(p, k) == Lookup(q, k)
  {
    LookupFinds(p, k);
    LookupFinds(q, k);
    if Lookup(p, k).Some? {
      assert (k, Lookup(p, k).value) in multiset(q);
      var j :| 0 <= j < |q| && q[j] == (k, Lookup(p, k).value);
      LookupMember(q, j);
    } else if Lookup(q, k).Some? {
      assert (k, Lookup(q, k).value) in multiset(p);
      var j :| 0 <= j < |p| && p[j] == (k, Lookup(q, k).value);
      LookupMember(p, j);
    }
  }

  /**
   Metadata insertion order never matters: the same entries inserted in any order give the same
   ordered map, hence the same bytes.
   */
  lemma InsertionOrderIrrelevant(f: Feature, p: seq<(Text, Text)>, q: seq<(Text, Text)>)
    requires DistinctKeys(p) && DistinctKeys(q) && multiset(p) == multiset(q)
    ensures Build(p) == Build(q)
    ensures EncodeFeature(f.(metadata := Build(p))) == EncodeFeature(f.(metadata := Build(q)))
  {
    BuildSound(p, []);
    BuildSound(q, []);
    forall k ensures Lookup(Build(p), k) == Lookup(Build(q), k) {
      BuildSound(p, k);
      BuildSound(q, k);
      PermutedLookup(p, q, k);
    }
    SameLookups(Build(p), Build(q));
  }
}
