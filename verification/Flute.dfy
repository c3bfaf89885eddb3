/** The value types of include/flute_types.h and the entries of include/FileDeliveryTable.h. */
module Flute {
  import opened Bytes

  /** The only forward error correction scheme of the library: compact no-code (section 3 of RFC 5445). */
  const COMPACT_NO_CODE: U32 := 0

  datatype ContentEncoding = NONE | ZLIB | DEFLATE | GZIP

  datatype FecOti = FecOti(
    encodingId: U32,
    instanceId: U32,
    transferLength: U64,
    encodingSymbolLength: U32,
    maxSourceBlockLength: U32,
    maxNumberOfEncodingSymbols: U32)

  const NO_OTI := FecOti(0, 0, 0, 0, 0, 0)

  datatype FileEntry = FileEntry(
    toi: U32,
    contentLocation: string,
    contentLength: U32,
    contentMd5: string,
    contentType: string,
    expires: U64,
    fecOti: FecOti,
    noCache: bool,
    cacheExpires: Option<U64>,
    contentEncoding: string,
    etag: string)

  /** An MD5 digest; the hash itself stays an arbitrary function of the buffer. */
  type Hash = h: seq<Byte> | |h| == 16 witness seq(16, _ => 0)

  type Md5 = seq<Byte> -> Hash
}
