/** The `integrity` attribute value the plugin writes: the literal algorithm
    prefix "sha384-" followed by the base64 encoding (section 4 of RFC 4648)
    of the SHA-384 digest (FIPS 180-4) of the content. The digest, the
    base64 encoding and the UTF-8 encoding of strings are library calls and
    enter the model as parameters. */
module Integrity {
  import opened Resource

  datatype Primitives = Primitives(
    utf8: string -> Bytes,
    sha384: Bytes -> Bytes,
    base64: Bytes -> string)

  const Algorithm: string := "sha384"

  /** The bytes the hash is fed: a string is hashed as its UTF-8 encoding,
      a buffer as it is. */
  function Digestible(p: Payload, prims: Primitives): (bytes: Bytes)
    ensures p.Binary? ==> bytes == p.bytes
    ensures p.Text? ==> bytes == prims.utf8(p.text)
  {
    match p
    case Text(s) => prims.utf8(s)
    case Binary(b) => b
  }

  /** The base64 text of the content's SHA-384 digest. */
  function DigestText(p: Payload, prims: Primitives): string
  {
    prims.base64(prims.sha384(Digestible(p, prims)))
  }

  /** `sha384-<base64 digest>`. */
  function IntegrityValue(p: Payload, prims: Primitives): (v: string)
    ensures |v| == |Algorithm| + 1 + |DigestText(p, prims)|
    ensures v[..|Algorithm|] == Algorithm && v[|Algorithm|] == '-'
    ensures v[|Algorithm| + 1..] == DigestText(p, prims)
  {
    Algorithm + "-" + DigestText(p, prims)
  }

  /** Splits `s` at the first occurrence of `c`. */
  function SplitFirst(s: string, c: char): (r: Option<(string, string)>)
    ensures r.None? <==> c !in s
    ensures r.Some? ==> s == r.value.0 + [c] + r.value.1 && c !in r.value.0
    decreases |s|
  {
    if s == [] then None
    else if s[0] == c then Some(([], s[1..]))
    else
      match SplitFirst(s[1..], c)
      case None => None
      case Some((before, after)) => Some(([s[0]] + before, after))
  }

  /** One hash expression of an integrity attribute as section 3.5 of the
      W3C Subresource Integrity recommendation writes it:
      `hash-algo "-" base64-value`. */
  datatype HashExpression = HashExpression(algorithm: string, digest: string)

  /** Reads a hash expression back, splitting at the first '-'. */
  function ParseHashExpression(v: string): Option<HashExpression>
  {
    match SplitFirst(v, '-')
    case None => None
    case Some((algorithm, digest)) => Some(HashExpression(algorithm, digest))
  }

  lemma {:induction false} SplitFirstAt(before: string, c: char, after: string)
    requires c !in before
    ensures SplitFirst(before + [c] + after, c) == Some((before, after))
    decreases |before|
  {
    var s := before + [c] + after;
    if before != [] {
      assert s[1..] == before[1..] + [c] + after;
      SplitFirstAt(before[1..], c, after);
      assert [s[0]] + before[1..] == before;
    }
  }

  /** The value the plugin writes parses as a hash expression naming
      SHA-384 and carrying the base64 digest of the content. */
  lemma IntegrityValueParses(p: Payload, prims: Primitives)
    ensures ParseHashExpression(IntegrityValue(p, prims))
         == Some(HashExpression("sha384", DigestText(p, prims)))
  {
    assert '-' !in Algorithm;
    SplitFirstAt(Algorithm, '-', DigestText(p, prims));
  }

  /** Two contents get the same integrity value exactly when their base64
      digests agree. */
  lemma IntegrityValueInjective(p: Payload, q: Payload, prims: Primitives)
    ensures IntegrityValue(p, prims) == IntegrityValue(q, prims)
        <==> DigestText(p, prims) == DigestText(q, prims)
  {
    if IntegrityValue(p, prims) == IntegrityValue(q, prims) {
      assert IntegrityValue(p, prims)[|Algorithm| + 1..] == IntegrityValue(q, prims)[|Algorithm| + 1..];
    }
  }
}
