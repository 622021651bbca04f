/**
 The canonical byte encoding of feature schemas: the bytes that are hashed, and a decoder that
 recovers the schema from them. Strings are their UTF-8 bytes, floats their IEEE-754 bit patterns.
 */
module Schema {
  import opened Errors
  import Names

  type Byte = n: nat | n < 256
  type Text = seq<Byte>
  type Bits = n: nat | n < 0x1_0000_0000_0000_0000

  datatype Constraint = Constraint(min: Option<Bits>, max: Option<Bits>)

  /** The metadata is an ordered map: entries in strictly ascending key order. */
  datatype Feature = Feature(
    name: Text, unit: Option<Text>, transform: Option<Text>, constraint: Option<Constraint>,
    metadata: seq<(Text, Text)>)

  datatype FeatureSchema = FeatureSchema(version: nat, features: seq<Feature>)

  const MAX_SCHEMA_FEATURES: nat := 4096
  const MAX_DESCRIPTOR_STRING_BYTES: nat := 256
  const MAX_FEATURE_METADATA_ENTRIES: nat := 64
  const U32_MAX: nat := 0xFFFF_FFFF

  /** `rill-feature-schema-v1` and a zero byte. */
  const HEADER: Text := [114, 105, 108, 108, 45, 102, 101, 97, 116, 117, 114, 101, 45, 115, 99, 104, 101, 109, 97, 45, 118, 49, 0]

  // ---- validation ----

  /** The exponent field is not all ones. */
  predicate IsFinite(b: Bits) {
    b / 0x10_0000_0000_0000 % 2048 != 2047
  }

  /** An integer with the order of the finite floats: sign and magnitude. */
  function OrderKey(b: Bits): int {
    if b < 0x8000_0000_0000_0000 then b else 0x8000_0000_0000_0000 - b
  }

  predicate ConstraintOk(c: Constraint) {
    && (c.min.Some? ==> IsFinite(c.min.value))
    && (c.max.Some? ==> IsFinite(c.max.value))
    && (c.min.Some? && c.max.Some? ==> OrderKey(c.min.value) <= OrderKey(c.max.value))
  }

  /** A control character in UTF-8: below 0x20, 0x7f, or 0xc2 followed by 0x80..0x9f. */
  predicate HasControl(t: Text) {
    exists i :: 0 <= i < |t| && (t[i] < 0x20 || t[i] == 0x7f || (t[i] == 0xc2 && i + 1 < |t| && 0x80 <= t[i + 1] <= 0x9f))
  }

  predicate TextOk(t: Text, allowEmpty: bool) {
    (allowEmpty || t != []) && |t| <= MAX_DESCRIPTOR_STRING_BYTES && !HasControl(t)
  }

  ghost predicate Ordered(m: seq<(Text, Text)>) {
    forall i, j :: 0 <= i < j < |m| ==> Names.Less(m[i].0, m[j].0)
  }

  predicate FeatureOk(f: Feature) {
    && TextOk(f.name, false)
    && (f.unit.Some? ==> TextOk(f.unit.value, false))
    && (f.transform.Some? ==> TextOk(f.transform.value, false))
    && |f.metadata| <= MAX_FEATURE_METADATA_ENTRIES
    && (forall i :: 0 <= i < |f.metadata| ==> TextOk(f.metadata[i].0, false) && TextOk(f.metadata[i].1, true))
    && (f.constraint.Some? ==> ConstraintOk(f.constraint.value))
  }

  /** What `FeatureSchema::validate` accepts. */
  predicate SchemaOk(s: FeatureSchema) {
    && 0 < s.version <= U32_MAX
    && 0 < |s.features| <= MAX_SCHEMA_FEATURES
    && (forall i :: 0 <= i < |s.features| ==> FeatureOk(s.features[i]))
    && (forall i, j :: 0 <= i < j < |s.features| ==> s.features[i].name != s.features[j].name)
  }

  // ---- encoding ----

  function Pow256(n: nat): (p: nat)
    ensures p > 0
  {
    if n == 0 then 1 else 256 * Pow256(n - 1)
  }

  /** `to_be_bytes` of an `n`-byte number. */
  function BigEndian(value: nat, n: nat): (bytes: Text)
    ensures |bytes| == n
  {
    if n == 0 then [] else BigEndian(value / 256, n - 1) + [value % 256]
  }

  function EncodeLen(n: nat): Text {
    BigEndian(n, 8)
  }

  function EncodeText(t: Text): Text {
    EncodeLen(|t|) + t
  }

  function EncodeOptionalText(t: Option<Text>): Text {
    match t
    case None => [0]
    case Some(value) => [1] + EncodeText(value)
  }

  function EncodeOptionalBits(b: Option<Bits>): Text {
    match b
    case None => [0]
    case Some(value) => [1] + BigEndian(value, 8)
  }

  function EncodeBounds(c: Constraint): Text {
    EncodeOptionalBits(c.min) + EncodeOptionalBits(c.max)
  }

  function EncodeConstraint(c: Option<Constraint>): Text {
    match c
    case None => [0]
    case Some(value) => [1] + EncodeBounds(value)
  }

  function EncodeEntry(e: (Text, Text)): Text {
    EncodeText(e.0) + EncodeText(e.1)
  }

  function EncodeEntries(m: seq<(Text, Text)>): Text {
    if m == [] then [] else EncodeEntry(m[0]) + EncodeEntries(m[1..])
  }

  function EncodeMetadata(m: seq<(Text, Text)>): Text {
    EncodeLen(|m|) + EncodeEntries(m)
  }

  function EncodeFromConstraint(f: Feature): Text {
    EncodeConstraint(f.constraint) + EncodeMetadata(f.metadata)
  }

  function EncodeFromTransform(f: Feature): Text {
    EncodeOptionalText(f.transform) + EncodeFromConstraint(f)
  }

  function EncodeFromUnit(f: Feature): Text {
    EncodeOptionalText(f.unit) + EncodeFromTransform(f)
  }

  /** Name, unit, transform, constraint, metadata. */
  function EncodeFeature(f: Feature): Text {
    EncodeText(f.name) + EncodeFromUnit(f)
  }

  function EncodeFeatures(fs: seq<Feature>): Text {
    if fs == [] then [] else EncodeFeature(fs[0]) + EncodeFeatures(fs[1..])
  }

  function EncodeList(fs: seq<Feature>): Text {
    EncodeLen(|fs|) + EncodeFeatures(fs)
  }

  function EncodeBody(s: FeatureSchema): Text {
    BigEndian(s.version, 4) + EncodeList(s.features)
  }

  /** The bytes fed to the hash. */
  function Encode(s: FeatureSchema): Text {
    HEADER + EncodeBody(s)
  }

  // ---- decoding ----

  datatype Parsed<T> = Failed | Parsed(value: T, rest: Text)

  function BigEndianValue(bytes: Text): nat {
    if bytes == [] then 0 else 256 * BigEndianValue(bytes[..|bytes| - 1]) + bytes[|bytes| - 1]
  }

  function ReadNumber(s: Text, n: nat): Parsed<nat> {
    if |s| < n then Failed else Parsed(BigEndianValue(s[..n]), s[n..])
  }

  function ReadText(s: Text): Parsed<Text> {
    match ReadNumber(s, 8)
    case Failed => Failed
    case Parsed(n, rest) => if |rest| < n then Failed else Parsed(rest[..n], rest[n..])
  }

  function ReadOptionalText(s: Text): Parsed<Option<Text>> {
    if s == [] || s[0] > 1 then Failed
    else if s[0] == 0 then Parsed(None, s[1..])
    else
      match ReadText(s[1..])
      case Failed => Failed
      case Parsed(t, rest) => Parsed(Some(t), rest)
  }

  function ReadOptionalBits(s: Text): Parsed<Option<Bits>> {
    if s == [] || s[0] > 1 then Failed
    else if s[0] == 0 then Parsed(None, s[1..])
    else
      match ReadNumber(s[1..], 8)
      case Failed => Failed
      case Parsed(n, rest) => if n < 0x1_0000_0000_0000_0000 then Parsed(Some(n), rest) else Failed
  }

  function ReadBounds(s: Text): Parsed<Constraint> {
    match ReadOptionalBits(s)
    case Failed => Failed
    case Parsed(low, rest) =>
      match ReadOptionalBits(rest)
      case Failed => Failed
      case Parsed(high, after) => Parsed(Constraint(low, high), after)
  }

  function ReadConstraint(s: Text): Parsed<Option<Constraint>> {
    if s == [] || s[0] > 1 then Failed
    else if s[0] == 0 then Parsed(None, s[1..])
    else
      match ReadBounds(s[1..])
      case Failed => Failed
      case Parsed(c, rest) => Parsed(Some(c), rest)
  }

  function ReadEntry(s: Text): Parsed<(Text, Text)> {
    match ReadText(s)
    case Failed => Failed
    case Parsed(key, rest) =>
      match ReadText(rest)
      case Failed => Failed
      case Parsed(value, after) => Parsed((key, value), after)
  }

  function ReadEntries(s: Text, n: nat): Parsed<seq<(Text, Text)>>
    decreases n
  {
    if n == 0 then Parsed([], s) else
      match ReadEntry(s)
      case Failed => Failed
      case Parsed(entry, rest) =>
        match ReadEntries(rest, n - 1)
        case Failed => Failed
        case Parsed(entries, last) => Parsed([entry] + entries, last)
  }

  function ReadMetadata(s: Text): Parsed<seq<(Text, Text)>> {
    match ReadNumber(s, 8)
    case Failed => Failed
    case Parsed(n, rest) => ReadEntries(rest, n)
  }

  function ReadFromMetadata(name: Text, unit: Option<Text>, transform: Option<Text>, c: Option<Constraint>, s: Text)
    : Parsed<Feature>
  {
    match ReadMetadata(s)
    case Failed => Failed
    case Parsed(metadata, rest) => Parsed(Feature(name, unit, transform, c, metadata), rest)
  }

  function ReadFromConstraint(name: Text, unit: Option<Text>, transform: Option<Text>, s: Text): Parsed<Feature> {
    match ReadConstraint(s)
    case Failed => Failed
    case Parsed(c, rest) => ReadFromMetadata(name, unit, transform, c, rest)
  }

  function ReadFromTransform(name: Text, unit: Option<Text>, s: Text): Parsed<Feature> {
    match ReadOptionalText(s)
    case Failed => Failed
    case Parsed(transform, rest) => ReadFromConstraint(name, unit, transform, rest)
  }

  function ReadFromUnit(name: Text, s: Text): Parsed<Feature> {
    match ReadOptionalText(s)
    case Failed => Failed
    case Parsed(unit, rest) => ReadFromTransform(name, unit, rest)
  }

  function ReadFeature(s: Text): Parsed<Feature> {
    match ReadText(s)
    case Failed => Failed
    case Parsed(name, rest) => ReadFromUnit(name, rest)
  }

  function ReadFeatures(s: Text, n: nat): Parsed<seq<Feature>>
    decreases n
  {
    if n == 0 then Parsed([], s) else
      match ReadFeature(s)
      case Failed => Failed
      case Parsed(f, rest) =>
        match ReadFeatures(rest, n - 1)
        case Failed => Failed
        case Parsed(fs, last) => Parsed([f] + fs, last)
  }

  function ReadList(s: Text): Parsed<seq<Feature>> {
    match ReadNumber(s, 8)
    case Failed => Failed
    case Parsed(n, rest) => ReadFeatures(rest, n)
  }

  function ReadBody(s: Text): Parsed<FeatureSchema> {
    match ReadNumber(s, 4)
    case Failed => Failed
    case Parsed(version, rest) =>
      match ReadList(rest)
      case Failed => Failed
      case Parsed(features, last) => Parsed(FeatureSchema(version, features), last)
  }

  function Decode(s: Text): Parsed<FeatureSchema> {
    if |s| < |HEADER| || s[..|HEADER|] != HEADER then Failed else ReadBody(s[|HEADER|..])
  }

  // ---- round trips, each before an arbitrary suffix ----

  lemma {:induction false} BigEndianBack(value: nat, n: nat)
    requires value < Pow256(n)
    ensures BigEndianValue(BigEndian(value, n)) == value
  {
    if n == 0 {
    } else {
      BigEndianBack(value / 256, n - 1);
      assert BigEndian(value, n)[..n - 1] == BigEndian(value / 256, n - 1);
    }
  }

  lemma Pow256Of8()
    ensures Pow256(8) == 0x1_0000_0000_0000_0000 && Pow256(4) == 0x1_0000_0000
  {
    assert Pow256(4) == 256 * Pow256(3);
    assert Pow256(8) == 256 * Pow256(7);
    assert Pow256(6) == 256 * Pow256(5);
  }

  lemma NumberBack(value: nat, n: nat, rest: Text)
    requires value < Pow256(n)
    ensures ReadNumber(BigEndian(value, n) + rest, n) == Parsed(value, rest)
  {
    var s := BigEndian(value, n) + rest;
    BigEndianBack(value, n);
    assert s[..n] == BigEndian(value, n) && s[n..] == rest;
  }

  lemma TextBack(t: Text, rest: Text)
    requires |t| < 0x1_0000_0000_0000_0000
    ensures ReadText(EncodeText(t) + rest) == Parsed(t, rest)
  {
    Pow256Of8();
    NumberBack(|t|, 8, t + rest);
    assert EncodeText(t) + rest == EncodeLen(|t|) + (t + rest);
    assert (t + rest)[..|t|] == t && (t + rest)[|t|..] == rest;
  }

  lemma OptionalTextBack(t: Option<Text>, rest: Text)
    requires t.Some? ==> |t.value| < 0x1_0000_0000_0000_0000
    ensures ReadOptionalText(EncodeOptionalText(t) + rest) == Parsed(t, rest)
  {
    match t
    case None => Untag(0, [], rest);
    case Some(value) =>
      TextBack(value, rest);
      Untag(1, EncodeText(value), rest);
  }

  lemma OptionalBitsBack(b: Option<Bits>, rest: Text)
    ensures ReadOptionalBits(EncodeOptionalBits(b) + rest) == Parsed(b, rest)
  {
    match b
    case None => Untag(0, [], rest);
    case Some(value) =>
      Pow256Of8();
      NumberBack(value, 8, rest);
      Untag(1, BigEndian(value, 8), rest);
  }

  lemma Regroup(a: Text, b: Text, rest: Text)
    ensures (a + b) + rest == a + (b + rest)
  {}

  lemma BoundsBack(c: Constraint, rest: Text)
    ensures ReadBounds(EncodeBounds(c) + rest) == Parsed(c, rest)
  {
    OptionalBitsBack(c.max, rest);
    OptionalBitsBack(c.min, EncodeOptionalBits(c.max) + rest);
    Regroup(EncodeOptionalBits(c.min), EncodeOptionalBits(c.max), rest);
  }

  lemma ConstraintBack(c: Option<Constraint>, rest: Text)
    ensures ReadConstraint(EncodeConstraint(c) + rest) == Parsed(c, rest)
  {
    match c
    case None => Untag(0, [], rest);
    case Some(value) =>
      BoundsBack(value, rest);
      Untag(1, EncodeBounds(value), rest);
  }

  lemma Untag(tag: Byte, t: Text, rest: Text)
    ensures var s := [tag] + t + rest; s[0] == tag && s[1..] == t + rest
  {}

  /** Both texts of an entry have a 64-bit length. */
  predicate EntryFits(e: (Text, Text)) {
    |e.0| < 0x1_0000_0000_0000_0000 && |e.1| < 0x1_0000_0000_0000_0000
  }

  lemma EntryBack(e: (Text, Text), rest: Text)
    requires EntryFits(e)
    ensures ReadEntry(EncodeEntry(e) + rest) == Parsed(e, rest)
  {
    TextBack(e.1, rest);
    TextBack(e.0, EncodeText(e.1) + rest);
    Regroup(EncodeText(e.0), EncodeText(e.1), rest);
  }

  lemma {:induction false} EntriesBack(m: seq<(Text, Text)>, rest: Text)
    requires forall i :: 0 <= i < |m| ==> EntryFits(m[i])
    ensures ReadEntries(EncodeEntries(m) + rest, |m|) == Parsed(m, rest)
  {
    if m == [] {
      assert EncodeEntries(m) + rest == rest;
    } else {
      EntriesBack(m[1..], rest);
      EntryBack(m[0], EncodeEntries(m[1..]) + rest);
      Regroup(EncodeEntry(m[0]), EncodeEntries(m[1..]), rest);
      assert [m[0]] + m[1..] == m;
    }
  }

  lemma MetadataBack(m: seq<(Text, Text)>, rest: Text)
    requires |m| < 0x1_0000_0000_0000_0000 && forall i :: 0 <= i < |m| ==> EntryFits(m[i])
    ensures ReadMetadata(EncodeMetadata(m) + rest) == Parsed(m, rest)
  {
    Pow256Of8();
    EntriesBack(m, rest);
    NumberBack(|m|, 8, EncodeEntries(m) + rest);
    Regroup(EncodeLen(|m|), EncodeEntries(m), rest);
  }

  lemma FromConstraintBack(f: Feature, rest: Text)
    requires FeatureOk(f)
    ensures ReadFromConstraint(f.name, f.unit, f.transform, EncodeFromConstraint(f) + rest) == Parsed(f, rest)
  {
    MetadataBack(f.metadata, rest);
    ConstraintBack(f.constraint, EncodeMetadata(f.metadata) + rest);
    Regroup(EncodeConstraint(f.constraint), EncodeMetadata(f.metadata), rest);
  }

  lemma FromTransformBack(f: Feature, rest: Text)
    requires FeatureOk(f)
    ensures ReadFromTransform(f.name, f.unit, EncodeFromTransform(f) + rest) == Parsed(f, rest)
  {
    FromConstraintBack(f, rest);
    OptionalTextBack(f.transform, EncodeFromConstraint(f) + rest);
    Regroup(EncodeOptionalText(f.transform), EncodeFromConstraint(f), rest);
  }

  lemma FromUnitBack(f: Feature, rest: Text)
    requires FeatureOk(f)
    ensures ReadFromUnit(f.name, EncodeFromUnit(f) + rest) == Parsed(f, rest)
  {
    FromTransformBack(f, rest);
    OptionalTextBack(f.unit, EncodeFromTransform(f) + rest);
    Regroup(EncodeOptionalText(f.unit), EncodeFromTransform(f), rest);
  }

  lemma FeatureBack(f: Feature, rest: Text)
    requires FeatureOk(f)
    ensures ReadFeature(EncodeFeature(f) + rest) == Parsed(f, rest)
  {
    FromUnitBack(f, rest);
    TextBack(f.name, EncodeFromUnit(f) + rest);
    Regroup(EncodeText(f.name), EncodeFromUnit(f), rest);
  }

  lemma ReadFeaturesStep(s: Text, fs: seq<Feature>, middle: Text, rest: Text)
    requires fs != [] && ReadFeature(s) == Parsed(fs[0], middle)
    requires ReadFeatures(middle, |fs| - 1) == Parsed(fs[1..], rest)
    ensures ReadFeatures(s, |fs|) == Parsed(fs, rest)
  {
    assert [fs[0]] + fs[1..] == fs;
  }

  lemma {:induction false} FeaturesBack(fs: seq<Feature>, rest: Text)
    requires forall i :: 0 <= i < |fs| ==> FeatureOk(fs[i])
    ensures ReadFeatures(EncodeFeatures(fs) + rest, |fs|) == Parsed(fs, rest)
  {
    if fs == [] {
      assert EncodeFeatures(fs) + rest == rest;
    } else {
      FeaturesBack(fs[1..], rest);
      FeatureBack(fs[0], EncodeFeatures(fs[1..]) + rest);
      Regroup(EncodeFeature(fs[0]), EncodeFeatures(fs[1..]), rest);
      ReadFeaturesStep(EncodeFeatures(fs) + rest, fs, EncodeFeatures(fs[1..]) + rest, rest);
    }
  }

  lemma BodyBack(s: FeatureSchema, rest: Text)
    requires SchemaOk(s)
    ensures ReadBody(EncodeBody(s) + rest) == Parsed(s, rest)
  {
    Pow256Of8();
    FeaturesBack(s.features, rest);
    NumberBack(|s.features|, 8, EncodeFeatures(s.features) + rest);
    Regroup(EncodeLen(|s.features|), EncodeFeatures(s.features), rest);
    NumberBack(s.version, 4, EncodeList(s.features) + rest);
    Regroup(BigEndian(s.version, 4), EncodeList(s.features), rest);
  }

  /** The decoder recovers every valid schema from its bytes and leaves any following bytes untouched. */
  lemma DecodeEncode(s: FeatureSchema, rest: Text)
    requires SchemaOk(s)
    ensures Decode(Encode(s) + rest) == Parsed(s, rest)
  {
    BodyBack(s, rest);
    Regroup(HEADER, EncodeBody(s), rest);
    var body := EncodeBody(s) + rest;
    assert (HEADER + body)[..|HEADER|] == HEADER && (HEADER + body)[|HEADER|..] == body;
  }

  /** The bytes identify the schema: no encoding equals, or is a proper prefix of, another's. */
  lemma EncodingIdentifies(a: FeatureSchema, b: FeatureSchema, afterA: Text, afterB: Text)
    requires SchemaOk(a) && SchemaOk(b) && Encode(a) + afterA == Encode(b) + afterB
    ensures a == b && afterA == afterB
  {
    DecodeEncode(a, afterA);
    DecodeEncode(b, afterB);
  }
}
