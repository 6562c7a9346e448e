/**
 The value of the `X-PowerAuth-Authorization` header produced from the result
 of a request-signing operation (`HTTPRequestDataSignature::buildAuthHeaderValue`).
 */
module AuthHeader {
  import opened Common
  import Splice

  /**
   The constant text placed around the six fields. Its contents are defined by
   the protocol constants, which are not part of this model, so every property
   below holds for any choice of fragments. `fragmentsLength` is the declared
   total length of the fragments, used only to size the output buffer.
   */
  datatype AuthFragments = AuthFragments(
    beginVersion: string,
    activationId: string,
    applicationKey: string,
    nonce: string,
    signatureType: string,
    signature: string,
    end: string,
    fragmentsLength: nat)
  {
    /** The fragments in the order they appear in the header. */
    function InOrder(): seq<string> {
      [beginVersion, activationId, applicationKey, nonce, signatureType, signature, end]
    }

    /** The declared total length agrees with the actual fragments. */
    predicate LengthIsConsistent() {
      fragmentsLength
        == |beginVersion| + |activationId| + |applicationKey| + |nonce|
           + |signatureType| + |signature| + |end|
    }
  }

  /** Result of signing one HTTP request. */
  datatype HTTPRequestDataSignature = HTTPRequestDataSignature(
    version: string,
    activationId: string,
    applicationKey: string,
    nonce: string,
    factor: string,
    signature: string)
  {
    /** The fields in the order they appear in the header: version first. */
    function Fields(): seq<string> {
      [version, activationId, applicationKey, nonce, factor, signature]
    }
  }

  /** The capacity reserved for the header before it is assembled. */
  function ReservedSize(f: AuthFragments, s: HTTPRequestDataSignature): nat
  {
    |s.activationId| + |s.applicationKey| + |s.nonce| + |s.factor| + |s.signature|
      + |s.version| + f.fragmentsLength
  }

  function BuildAuthHeaderValue(f: AuthFragments, s: HTTPRequestDataSignature): (out: string)
    ensures f.LengthIsConsistent() ==> |out| == ReservedSize(f, s)
    ensures |out| >= |f.beginVersion| + |s.version| + |f.end|
    ensures out[..|f.beginVersion|] == f.beginVersion
    ensures out[|f.beginVersion|..|f.beginVersion| + |s.version|] == s.version
    ensures out[|out| - |f.end|..] == f.end
  {
    f.beginVersion + s.version
      + f.activationId + s.activationId
      + f.applicationKey + s.applicationKey
      + f.nonce + s.nonce
      + f.signatureType + s.factor
      + f.signature + s.signature
      + f.end
  }

  /** The header alternates fragments and fields, with the fields in the fixed order of `Fields`. */
  lemma AuthHeaderFieldOrder(f: AuthFragments, s: HTTPRequestDataSignature)
    ensures BuildAuthHeaderValue(f, s) == Splice.Interleave(f.InOrder(), s.Fields())
  {
    var frags := f.InOrder();
    var fields := s.Fields();
    // The splice after k fields is the header as built after k appended fields.
    var out := f.beginVersion;
    assert Splice.Interleave(frags[..1], fields[..0]) == out;
    out := out + s.version + f.activationId;
    assert Splice.Interleave(frags[..2], fields[..1]) == out;
    out := out + s.activationId + f.applicationKey;
    Splice.InterleaveGrow(frags, fields, 1);
    assert Splice.Interleave(frags[..3], fields[..2]) == out;
    out := out + s.applicationKey + f.nonce;
    Splice.InterleaveGrow(frags, fields, 2);
    assert Splice.Interleave(frags[..4], fields[..3]) == out;
    out := out + s.nonce + f.signatureType;
    Splice.InterleaveGrow(frags, fields, 3);
    assert Splice.Interleave(frags[..5], fields[..4]) == out;
    out := out + s.factor + f.signature;
    Splice.InterleaveGrow(frags, fields, 4);
    assert Splice.Interleave(frags[..6], fields[..5]) == out;
    Splice.InterleaveGrow(frags, fields, 5);
    out := out + s.signature + f.end;
    assert frags[..7] == frags && fields[..6] == fields;
  }

  /** The reserved capacity equals the final length exactly when the declared fragment length is right. */
  lemma ReservedSizeIsExact(f: AuthFragments, s: HTTPRequestDataSignature)
    ensures ReservedSize(f, s) == |BuildAuthHeaderValue(f, s)| <==> f.LengthIsConsistent()
  {
  }

  /**
   With a consistent declared fragment length, the reserved capacity is the
   total length of all fragments and all fields.
   */
  lemma ReservedSizeIsTotalLength(f: AuthFragments, s: HTTPRequestDataSignature)
    requires f.LengthIsConsistent()
    ensures ReservedSize(f, s) == Splice.TotalLength(f.InOrder()) + Splice.TotalLength(s.Fields())
  {
    AuthHeaderFieldOrder(f, s);
    Splice.InterleaveLength(f.InOrder(), s.Fields());
  }

  /**
   Recovers the six fields from a header value, given the fragments and the
   length of each field; None when the value does not have the header's shape.
   */
  function ParseAuthHeaderValue(f: AuthFragments, fieldLens: seq<nat>, header: string)
    : (r: Option<HTTPRequestDataSignature>)
    requires |fieldLens| == 6
    ensures r.Some? ==> BuildAuthHeaderValue(f, r.value) == header
    ensures r.Some? ==> Splice.Lengths(r.value.Fields()) == fieldLens
  {
    match Splice.Split(f.InOrder(), fieldLens, header)
    case None => None
    case Some(fields) =>
      var s := HTTPRequestDataSignature(fields[0], fields[1], fields[2], fields[3], fields[4], fields[5]);
      assert s.Fields() == fields;
      AuthHeaderFieldOrder(f, s);
      Some(s)
  }

  /** Every header value parses back to the signature it was built from. */
  lemma AuthHeaderRoundTrip(f: AuthFragments, s: HTTPRequestDataSignature)
    ensures ParseAuthHeaderValue(f, Splice.Lengths(s.Fields()), BuildAuthHeaderValue(f, s)) == Some(s)
  {
    AuthHeaderFieldOrder(f, s);
    Splice.SplitInterleave(f.InOrder(), s.Fields());
  }

  /** Two signatures with equally long fields that give the same header are the same signature. */
  lemma AuthHeaderInjective(f: AuthFragments, a: HTTPRequestDataSignature, b: HTTPRequestDataSignature)
    requires Splice.Lengths(a.Fields()) == Splice.Lengths(b.Fields())
    requires BuildAuthHeaderValue(f, a) == BuildAuthHeaderValue(f, b)
    ensures a == b
  {
    AuthHeaderRoundTrip(f, a);
    AuthHeaderRoundTrip(f, b);
  }
}
