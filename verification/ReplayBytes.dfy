/** The bytes a fact contributes to the replay digest: where every field stands, and that they determine the fact. */
module ReplayBytes {
  import opened Digest
  import opened Replay
  import opened ReplayJournal

  function Pow256(k: nat): (p: nat)
    ensures p > 0
  {
    if k == 0 then 1 else 256 * Pow256(k - 1)
  }

  /** From position `at` on stand the `n` low bytes of `value`, least significant first. */
  predicate Spells(bytes: seq<Byte>, at: nat, n: nat, value: nat) {
    at + n <= |bytes| && forall k: nat :: k < n ==> bytes[at + k] == value / Pow256(k) % 256
  }

  // ---- one field ----

  lemma Recompose(value: nat, a: nat, b: nat, x: nat, s: nat, q: nat, t: nat)
    requires value == x * a + s && x == q * b + t && s < a && t < b
    ensures value == q * (b * a) + (t * a + s) && t * a + s < b * a
  {
    assert (q * b + t) * a == q * (b * a) + t * a;
    AtMost(t + 1, b, a);
  }

  lemma AtMost(p: nat, q: nat, d: nat)
    requires p <= q
    ensures p * d <= q * d
  {}

  lemma Below(value: nat, d: nat, p: nat, q: nat)
    requires p * d <= value < (q + 1) * d
    ensures p <= q
  {
    if p > q { AtMost(q + 1, p, d); }
  }

  lemma QuotientIs(value: nat, d: nat, q: nat, r: nat)
    requires d > 0 && value == q * d + r && r < d
    ensures value / d == q
  {
    var p := value / d;
    assert value == p * d + value % d;
    Below(value, d, p, q);
    Below(value, d, q, p);
  }

  lemma DivideTwice(value: nat, a: nat, b: nat)
    requires a > 0 && b > 0
    ensures b * a > 0 && value / a / b == value / (b * a)
  {
    var x := value / a;
    var q := x / b;
    assert value == x * a + value % a && x == q * b + x % b;
    Recompose(value, a, b, x, value % a, q, x % b);
    AtMost(1, b, a);
    QuotientIs(value, b * a, q, (x % b) * a + value % a);
  }

  lemma {:induction false} LittleEndianSpells(value: nat, n: nat)
    ensures Spells(LittleEndian(value, n), 0, n, value)
  {
    if n == 0 {
    } else {
      LittleEndianSpells(value / 256, n - 1);
      forall k: nat | k < n ensures LittleEndian(value, n)[k] == value / Pow256(k) % 256 {
        if k > 0 {
          DivideTwice(value, 256, Pow256(k - 1));
          assert Pow256(k) == Pow256(k - 1) * 256;
          assert LittleEndian(value, n)[k] == LittleEndian(value / 256, n - 1)[0 + (k - 1)];
        }
      }
    }
  }

  lemma SpellsWithin(before: seq<Byte>, field: seq<Byte>, after: seq<Byte>, value: nat)
    requires Spells(field, 0, |field|, value)
    ensures Spells(before + field + after, |before|, |field|, value)
  {
    forall k: nat | k < |field| ensures (before + field + after)[|before| + k] == value / Pow256(k) % 256 {
      assert field[0 + k] == value / Pow256(k) % 256;
    }
  }

  /** The bytes of one field, inside a longer stream. */
  lemma FieldSpells(before: seq<Byte>, value: nat, n: nat, after: seq<Byte>)
    ensures Spells(before + LittleEndian(value, n) + after, |before|, n, value)
  {
    LittleEndianSpells(value, n);
    SpellsWithin(before, LittleEndian(value, n), after, value);
  }

  lemma {:induction false} WordsSpell(values: seq<real>, bits: real -> Word, i: nat)
    requires i < |values|
    ensures |WordsBytes(values, bits)| == 8 * |values|
    ensures Spells(WordsBytes(values, bits), 8 * i, 8, bits(values[i]))
  {
    var n := |values| - 1;
    WordsLength(values, bits);
    WordsLength(values[..n], bits);
    var init := WordsBytes(values[..n], bits);
    if i == n {
      FieldSpells(init, bits(values[n]), 8, []);
      assert init + LittleEndian(bits(values[n]), 8) + [] == WordsBytes(values, bits);
    } else {
      WordsSpell(values[..n], bits, i);
      forall k: nat | k < 8 ensures WordsBytes(values, bits)[8 * i + k] == bits(values[i]) / Pow256(k) % 256 {
        assert init[8 * i + k] == bits(values[i]) / Pow256(k) % 256;
      }
    }
  }

  lemma {:induction false} WordsLength(values: seq<real>, bits: real -> Word)
    ensures |WordsBytes(values, bits)| == 8 * |values|
  {
    if values == [] {
    } else {
      WordsLength(values[..|values| - 1], bits);
    }
  }

  // ---- the whole record ----

  /** The fields before the context. */
  function HeadBytes(r: Record, marker: Byte): seq<Byte> {
    [marker] + LittleEndian(r.timestamp, 8) + LittleEndian(r.decisionId, 16)
    + LittleEndian(r.selectedArm, 8) + LittleEndian(r.generation, 8)
  }

  lemma HeadSpells(r: Record, marker: Byte, rest: seq<Byte>)
    ensures var bytes := HeadBytes(r, marker) + rest;
      && |HeadBytes(r, marker)| == 41 && bytes[0] == marker
      && Spells(bytes, 1, 8, r.timestamp) && Spells(bytes, 9, 16, r.decisionId)
      && Spells(bytes, 25, 8, r.selectedArm) && Spells(bytes, 33, 8, r.generation)
  {
    var time, id := LittleEndian(r.timestamp, 8), LittleEndian(r.decisionId, 16);
    var arm, generation := LittleEndian(r.selectedArm, 8), LittleEndian(r.generation, 8);
    var bytes := HeadBytes(r, marker) + rest;
    FieldSpells([marker], r.timestamp, 8, id + arm + generation + rest);
    assert [marker] + time + (id + arm + generation + rest) == bytes;
    FieldSpells([marker] + time, r.decisionId, 16, arm + generation + rest);
    assert [marker] + time + id + (arm + generation + rest) == bytes;
    FieldSpells([marker] + time + id, r.selectedArm, 8, generation + rest);
    assert [marker] + time + id + arm + (generation + rest) == bytes;
    FieldSpells([marker] + time + id + arm, r.generation, 8, rest);
  }

  lemma SpellsShift(head: seq<Byte>, bytes: seq<Byte>, at: nat, n: nat, value: nat, rest: seq<Byte>)
    requires Spells(bytes, at, n, value)
    ensures Spells(head + bytes + rest, |head| + at, n, value)
  {
    forall k: nat | k < n ensures (head + bytes + rest)[|head| + at + k] == value / Pow256(k) % 256 {
      assert bytes[at + k] == value / Pow256(k) % 256;
    }
  }

  /**
   Where each field stands: the marker, then timestamp (8 bytes), identifier (16), arm (8) and generation (8), one
   8-byte word per context entry, and the word of the reward if the record has one; and nothing else.
   */
  lemma RecordLayout(r: Record, marker: Byte, bits: real -> Word)
    ensures var bytes, n := RecordBytes(r, marker, bits), |r.context|;
      && |bytes| == 41 + 8 * n + (if r.reward.Some? then 8 else 0) && bytes[0] == marker
      && Spells(bytes, 1, 8, r.timestamp) && Spells(bytes, 9, 16, r.decisionId)
      && Spells(bytes, 25, 8, r.selectedArm) && Spells(bytes, 33, 8, r.generation)
      && (forall i :: 0 <= i < n ==> Spells(bytes, 41 + 8 * i, 8, bits(r.context[i])))
      && (r.reward.Some? ==> Spells(bytes, 41 + 8 * n, 8, bits(r.reward.value)))
  {
    var bytes, head, words := RecordBytes(r, marker, bits), HeadBytes(r, marker), WordsBytes(r.context, bits);
    var reward := if r.reward.Some? then LittleEndian(bits(r.reward.value), 8) else [];
    assert bytes == head + words + reward && bytes == head + (words + reward);
    HeadSpells(r, marker, words + reward);
    WordsLength(r.context, bits);
    forall i | 0 <= i < |r.context| ensures Spells(bytes, 41 + 8 * i, 8, bits(r.context[i])) {
      WordsSpell(r.context, bits, i);
      SpellsShift(head, words, 8 * i, 8, bits(r.context[i]), reward);
    }
    if r.reward.Some? {
      FieldSpells(head + words, bits(r.reward.value), 8, []);
      assert head + words + reward + [] == bytes;
    }
  }

  /** A registered decision starts with the letter d and an accepted outcome with the letter o. */
  lemma FactLayout(f: Fact, bits: real -> Word)
    ensures |FactBytes(f, bits)| >= 41
    ensures FactBytes(f, bits)[0] == if f.Chosen? then 'd' as int else 'o' as int
  {
    RecordLayout(f.record, if f.Chosen? then DECISION_MARKER else OUTCOME_MARKER, bits);
  }

  // ---- the bytes determine the fact ----

  lemma {:induction false} Pow256Grows(n: nat)
    ensures Pow256(n) == Pow2(8 * n)
  {
    if n == 0 {
    } else {
      Pow256Grows(n - 1);
      Pow2Add(8, 8 * (n - 1));
      assert Pow2(8) == 256;
    }
  }

  /** What is spelled at one place is determined by the bytes there. */
  lemma SpelledOnce(bytes: seq<Byte>, at: nat, n: nat, a: nat, b: nat)
    requires Spells(bytes, at, n, a) && Spells(bytes, at, n, b) && a < Pow256(n) && b < Pow256(n)
    ensures a == b
  {
    LittleEndianSpells(a, n);
    LittleEndianSpells(b, n);
    forall k | 0 <= k < n ensures LittleEndian(a, n)[k] == LittleEndian(b, n)[k] {
      assert LittleEndian(a, n)[0 + k] == a / Pow256(k) % 256 == bytes[at + k];
      assert LittleEndian(b, n)[0 + k] == b / Pow256(k) % 256 == bytes[at + k];
    }
    Pow256Grows(n);
    LittleEndianInjective(a, b, n);
  }

  /** The integer fields fit their widths: 64 bits, and 128 for the identifier. */
  predicate Sized(r: Record) {
    r.timestamp < MODULUS && r.decisionId < MODULUS * MODULUS && r.selectedArm < MODULUS && r.generation < MODULUS
  }

  lemma Widths()
    ensures Pow256(8) == MODULUS && Pow256(16) == MODULUS * MODULUS
  {
    Pow256Grows(8);
    Pow256Grows(16);
    Pow2Of64();
    Pow2Add(64, 64);
  }

  /**
   Two facts of one feature count with the same bytes agree in marker, timestamp, identifier, arm, generation, the
   bit patterns of their contexts, and the presence and bit pattern of their rewards.
   */
  lemma BytesIdentify(p: Record, q: Record, m: Byte, m': Byte, bits: real -> Word)
    requires Sized(p) && Sized(q) && |p.context| == |q.context|
    requires RecordBytes(p, m, bits) == RecordBytes(q, m', bits)
    ensures m == m' && p.timestamp == q.timestamp && p.decisionId == q.decisionId
    ensures p.selectedArm == q.selectedArm && p.generation == q.generation
    ensures forall i :: 0 <= i < |p.context| ==> bits(p.context[i]) == bits(q.context[i])
    ensures p.reward.Some? == q.reward.Some?
    ensures p.reward.Some? ==> bits(p.reward.value) == bits(q.reward.value)
  {
    var bytes, n := RecordBytes(p, m, bits), |p.context|;
    RecordLayout(p, m, bits);
    RecordLayout(q, m', bits);
    HeadIdentifies(bytes, p, q);
    Widths();
    forall i | 0 <= i < n ensures bits(p.context[i]) == bits(q.context[i]) {
      SpelledOnce(bytes, 41 + 8 * i, 8, bits(p.context[i]), bits(q.context[i]));
    }
    if p.reward.Some? { SpelledOnce(bytes, 41 + 8 * n, 8, bits(p.reward.value), bits(q.reward.value)); }
  }

  predicate SpellsHead(bytes: seq<Byte>, r: Record) {
    && Spells(bytes, 1, 8, r.timestamp) && Spells(bytes, 9, 16, r.decisionId)
    && Spells(bytes, 25, 8, r.selectedArm) && Spells(bytes, 33, 8, r.generation)
  }

  lemma HeadIdentifies(bytes: seq<Byte>, p: Record, q: Record)
    requires Sized(p) && Sized(q) && SpellsHead(bytes, p) && SpellsHead(bytes, q)
    ensures p.timestamp == q.timestamp && p.decisionId == q.decisionId
    ensures p.selectedArm == q.selectedArm && p.generation == q.generation
  {
    Widths();
    SpelledOnce(bytes, 1, 8, p.timestamp, q.timestamp);
    SpelledOnce(bytes, 9, 16, p.decisionId, q.decisionId);
    SpelledOnce(bytes, 25, 8, p.selectedArm, q.selectedArm);
    SpelledOnce(bytes, 33, 8, p.generation, q.generation);
  }

  /** Facts that differ only in a reward whose bit patterns differ in one byte give different digests. */
  lemma RewardChangesDigest(digest: Word, p: Record, q: Record, marker: Byte, bits: real -> Word, k: nat)
    requires p.reward.Some? && q.reward.Some? && q == p.(reward := q.reward) && k < 8
    requires bits(p.reward.value) / Pow256(k) % 256 != bits(q.reward.value) / Pow256(k) % 256
    requires forall j: nat :: j < 8 && j != k ==> bits(p.reward.value) / Pow256(j) % 256 == bits(q.reward.value) / Pow256(j) % 256
    ensures Mix(digest, RecordBytes(p, marker, bits)) != Mix(digest, RecordBytes(q, marker, bits))
  {
    var left, right, at := RecordBytes(p, marker, bits), RecordBytes(q, marker, bits), 41 + 8 * |p.context|;
    RecordLayout(p, marker, bits);
    RecordLayout(q, marker, bits);
    var head := HeadBytes(p, marker) + WordsBytes(p.context, bits);
    assert left == head + left[at..] && right == head + right[at..] by {
      WordsLength(p.context, bits);
    }
    forall i | 0 <= i < |left| && i != at + k ensures left[i] == right[i] {
      if i >= at {
        var j: nat := i - at;
        assert left[at + j] == bits(p.reward.value) / Pow256(j) % 256;
        assert right[at + j] == bits(q.reward.value) / Pow256(j) % 256;
      }
    }
    assert left[at + k] != right[at + k];
    OneByteChangesDigest(digest, left, right, at + k);
  }
}
