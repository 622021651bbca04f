/** The imperative encoder: helpers feed a mutable hasher input in loops over features and metadata. */
module SchemaHasher {
  import opened Errors
  import opened Schema

  /** The bytes fed so far to the hash function, which is not part of this model. */
  class HashInput {
    var bytes: Text

    constructor ()
      ensures bytes == []
    {
      bytes := [];
    }

    method Update(chunk: Text)
      modifies this
      ensures bytes == old(bytes) + chunk
    {
      bytes := bytes + chunk;
    }

    method WriteLen(value: nat)
      modifies this
      ensures bytes == old(bytes) + EncodeLen(value)
    {
      Update(BigEndian(value, 8));
    }

    method WriteString(value: Text)
      modifies this
      ensures bytes == old(bytes) + EncodeText(value)
    {
      WriteLen(|value|);
      Update(value);
    }

    method WriteOptionalString(value: Option<Text>)
      modifies this
      ensures bytes == old(bytes) + EncodeOptionalText(value)
    {
      match value
      case Some(text) =>
        Update([1]);
        WriteString(text);
      case None => Update([0]);
    }

    method WriteOptionalBits(value: Option<Bits>)
      modifies this
      ensures bytes == old(bytes) + EncodeOptionalBits(value)
    {
      match value
      case Some(b) =>
        Update([1]);
        Update(BigEndian(b, 8));
      case None => Update([0]);
    }

    method WriteConstraint(value: Option<Constraint>)
      modifies this
      ensures bytes == old(bytes) + EncodeConstraint(value)
    {
      match value
      case None => Update([0]);
      case Some(c) =>
        Update([1]);
        WriteOptionalBits(c.min);
        WriteOptionalBits(c.max);
    }

    method WriteMetadata(m: seq<(Text, Text)>)
      modifies this
      ensures bytes == old(bytes) + EncodeMetadata(m)
    {
      WriteLen(|m|);
      ghost var start := bytes;
      assert m[0..] == m;
      for i := 0 to |m|
        invariant bytes + EncodeEntries(m[i..]) == start + EncodeEntries(m)
      {
        EntryStep(bytes, m[i..]);
        assert m[i..][1..] == m[i + 1..];
        WriteString(m[i].0);
        WriteString(m[i].1);
      }
      assert bytes + [] == bytes;
      Regroup(old(bytes), EncodeLen(|m|), EncodeEntries(m));
    }

    method WriteFeature(f: Feature)
      modifies this
      ensures bytes == old(bytes) + EncodeFeature(f)
    {
      WriteString(f.name);
      WriteOptionalString(f.unit);
      WriteOptionalString(f.transform);
      WriteConstraint(f.constraint);
      WriteMetadata(f.metadata);
      FeatureParts(old(bytes), f);
    }

    /** The loop of `hash` over the features. */
    method WriteFeatures(fs: seq<Feature>)
      modifies this
      ensures bytes == old(bytes) + EncodeFeatures(fs)
    {
      ghost var start := bytes;
      assert fs[0..] == fs;
      for i := 0 to |fs|
        invariant bytes + EncodeFeatures(fs[i..]) == start + EncodeFeatures(fs)
      {
        FeatureStep(bytes, fs[i..]);
        assert fs[i..][1..] == fs[i + 1..];
        WriteFeature(fs[i]);
      }
      assert bytes + [] == bytes;
    }
  }

  lemma EntryStep(bytes: Text, m: seq<(Text, Text)>)
    requires m != []
    ensures bytes + EncodeText(m[0].0) + EncodeText(m[0].1) + EncodeEntries(m[1..]) == bytes + EncodeEntries(m)
  {}

  lemma FeatureStep(bytes: Text, fs: seq<Feature>)
    requires fs != []
    ensures bytes + EncodeFeature(fs[0]) + EncodeFeatures(fs[1..]) == bytes + EncodeFeatures(fs)
  {}

  lemma Flatten(start: Text, a: Text, b: Text, c: Text, d: Text, e: Text)
    ensures start + a + b + c + d + e == start + (a + (b + (c + (d + e))))
  {}

  lemma FeatureParts(start: Text, f: Feature)
    ensures start + EncodeText(f.name) + EncodeOptionalText(f.unit) + EncodeOptionalText(f.transform)
            + EncodeConstraint(f.constraint) + EncodeMetadata(f.metadata) == start + EncodeFeature(f)
  {
    Flatten(start, EncodeText(f.name), EncodeOptionalText(f.unit), EncodeOptionalText(f.transform),
            EncodeConstraint(f.constraint), EncodeMetadata(f.metadata));
  }

  /** `FeatureSchema::validate` with its set of seen names. */
  method Validate(s: FeatureSchema) returns (ok: bool)
    ensures ok <==> SchemaOk(s)
  {
    if s.version == 0 || s.version > U32_MAX || |s.features| == 0 || |s.features| > MAX_SCHEMA_FEATURES {
      return false;
    }
    var names: set<Text> := {};
    for i := 0 to |s.features|
      invariant forall k :: 0 <= k < i ==> FeatureOk(s.features[k])
      invariant forall j, k :: 0 <= j < k < i ==> s.features[j].name != s.features[k].name
      invariant forall n :: n in names <==> exists k :: 0 <= k < i && s.features[k].name == n
    {
      if !FeatureOk(s.features[i]) || s.features[i].name in names {
        return false;
      }
      names := names + {s.features[i].name};
    }
    ok := true;
  }

  /** `FeatureSchema::hash` up to the digest itself: the bytes a valid schema is hashed from. */
  method HashBytes(s: FeatureSchema) returns (r: Result<Text>)
    ensures r == if SchemaOk(s) then Ok(Encode(s)) else Err(InvalidState(SchemaInvalid))
  {
    var valid := Validate(s);
    if !valid {
      return Err(InvalidState(SchemaInvalid));
    }
    var hasher := new HashInput();
    hasher.Update(HEADER);
    hasher.Update(BigEndian(s.version, 4));
    hasher.WriteLen(|s.features|);
    hasher.WriteFeatures(s.features);
    assert [] + HEADER == HEADER;
    Regroup(HEADER, BigEndian(s.version, 4), EncodeLen(|s.features|));
    Regroup(HEADER, BigEndian(s.version, 4) + EncodeLen(|s.features|), EncodeFeatures(s.features));
    Regroup(BigEndian(s.version, 4), EncodeLen(|s.features|), EncodeFeatures(s.features));
    r := Ok(hasher.bytes);
  }
}
