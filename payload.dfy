/**
 * Format sniffing and decoding of a fetched sticker buffer (bin.js, the
 * first-byte test of `handleSticker`). An animated sticker is a Lottie JSON
 * document, usually gzip-compressed; the code treats the buffer as plain JSON
 * exactly when its first byte is `{` and decompresses everything else.
 */
module Payload {
  import opened Common

  /** The byte value of `{`. */
  const OpenBrace: byte := 123

  datatype Encoding = PlainJson | Compressed

  /** `buffer[0] !== 123` decides; on an empty buffer `buffer[0]` is `undefined`, which differs from 123. */
  function Classify(buf: seq<byte>): (e: Encoding)
    ensures e == PlainJson <==> |buf| > 0 && buf[0] == OpenBrace
  {
    if |buf| > 0 && buf[0] == OpenBrace then PlainJson else Compressed
  }

  /** The gzip member header's magic bytes ID1 = 0x1f, ID2 = 0x8b (section 2.3.1 of RFC 1952). */
  predicate HasGzipMagic(buf: seq<byte>)
  {
    |buf| >= 2 && buf[0] == 0x1F && buf[1] == 0x8B
  }

  /**
   * The document handed to the renderer: the buffer itself when it is plain,
   * otherwise the result of the foreign `zlib.gunzip`, whose failure is
   * propagated.
   */
  function Decode(buf: seq<byte>, gunzip: seq<byte> -> Result<seq<byte>, string>): (r: Result<seq<byte>, string>)
    ensures Classify(buf) == PlainJson ==> r == Ok(buf)
    ensures Classify(buf) == Compressed ==> r == gunzip(buf)
  {
    match Classify(buf)
    case PlainJson => Ok(buf)
    case Compressed => gunzip(buf)
  }

  /** A gzip stream is never mistaken for plain JSON. */
  lemma GzipIsDecompressed(buf: seq<byte>, gunzip: seq<byte> -> Result<seq<byte>, string>)
    requires HasGzipMagic(buf)
    ensures Classify(buf) == Compressed && Decode(buf, gunzip) == gunzip(buf)
  {
  }

  /**
   * The test is a heuristic, not the check of RFC 1952: a JSON document that
   * starts with white space, which is neither `{` nor gzip, still goes to
   * `gunzip`.
   */
  lemma LeadingSpaceGoesToGunzip(doc: seq<byte>)
    ensures var buf := [0x20 as byte] + doc; Classify(buf) == Compressed && !HasGzipMagic(buf)
  {
  }

  /**
   * Given that the foreign `gunzip` inverts a gzip compressor whose output
   * carries the gzip magic (an assumption about zlib, taken as a hypothesis
   * here), both encodings of a document that starts with `{` decode to that
   * document.
   */
  lemma DecodeRecoversDocument(doc: seq<byte>, gzip: seq<byte> -> seq<byte>,
                               gunzip: seq<byte> -> Result<seq<byte>, string>)
    requires |doc| > 0 && doc[0] == OpenBrace
    requires forall d :: HasGzipMagic(gzip(d))
    requires forall d :: gunzip(gzip(d)) == Ok(d)
    ensures Decode(doc, gunzip) == Ok(doc)
    ensures Decode(gzip(doc), gunzip) == Ok(doc)
  {
    GzipIsDecompressed(gzip(doc), gunzip);
  }
}
