/**
 * The share-link codec: `to_url_str` writes a session as
 * serialise (bincode) → compress (zstd) → base-x text, and `from_url_str`
 * strips an optional public-URL prefix and undoes the three stages, falling
 * back to the default session when any of them fails.
 *
 * bincode and zstd are foreign libraries; they enter as the four functions of
 * a `Stages` value, and the laws they are relied on to obey are stated by
 * `Lawful` and taken as hypotheses by the round-trip lemmas.
 */
module UrlCodec {
  import opened Wrappers
  import opened Utf8
  import opened Config
  import BaseX

  /** The foreign stages: bincode's encoder and decoder, zstd's compressor and decompressor. */
  datatype Stages = Stages(
    serialize: PlaygroundConfig -> seq<byte>,
    deserialize: seq<byte> -> Option<PlaygroundConfig>,
    compress: seq<byte> -> seq<byte>,
    decompress: seq<byte> -> Option<seq<byte>>)

  /**
   * The inverse laws of the foreign stages. decompress undoes compress on every
   * byte string. deserialize undoes serialize on every session whose subject is
   * non-empty: an empty subject is skipped when serialising, and the positional
   * format gives no guarantee of reading such a record back.
   */
  ghost predicate Lawful(k: Stages)
  {
    && (forall c: PlaygroundConfig :: c.subject != [] ==> k.deserialize(k.serialize(c)) == Some(c))
    && (forall b: seq<byte> :: k.decompress(k.compress(b)) == Some(b))
  }

  /** `to_url_str`: the shareable token of a session. */
  function ToUrlStr(k: Stages, c: PlaygroundConfig): (s: string)
    ensures BaseX.InAlphabet(BaseX.Alphabet, s)
    ensures '#' !in s && '%' !in s
  {
    var compressed := k.compress(k.serialize(c));
    BaseX.EncodeBytesInAlphabet(compressed);
    BaseX.EncodeBytes(compressed)
  }

  /**
   * The value build.rs stores as `PUBLIC_URL`: the configured public URL with
   * one leading '/' removed, followed by "#/".
   */
  function BuildPublicUrl(publicUrl: string): (p: string)
    ensures |p| >= 2 && p[|p| - 2..] == "#/"
    ensures |publicUrl| > 0 && publicUrl[0] == '/' ==> p[..|p| - 2] == publicUrl[1..]
    ensures !(|publicUrl| > 0 && publicUrl[0] == '/') ==> p[..|p| - 2] == publicUrl
    ensures '#' in p
  {
    var trimmed := if |publicUrl| > 0 && publicUrl[0] == '/' then publicUrl[1..] else publicUrl;
    var p := trimmed + "#/";
    assert p[..|p| - 2] == trimmed;
    assert p[|p| - 2] == '#';
    p
  }

  /** The prefix step of `from_url_str`: drop `prefix` once if `s` starts with it. */
  function StripPublicUrl(prefix: string, s: string): (t: string)
    ensures s == t || s == prefix + t
    ensures prefix <= s ==> s == prefix + t
    ensures !(prefix <= s) ==> t == s
  {
    if prefix <= s then s[|prefix|..] else s
  }

  /** Which decoding stage rejected a token. */
  datatype Stage = BaseXFailed | ZstdFailed | BincodeFailed

  /** The three fallible decoding stages of `from_url_str`, in order, with the first failure named. */
  function DecodeToken(k: Stages, token: string): (r: Result<PlaygroundConfig, Stage>)
    ensures r == Err(BaseXFailed) <==> BaseX.DecodeBytes(token).Err?
    ensures r.Ok? ==> BaseX.DecodeBytes(token).Ok? && k.decompress(BaseX.DecodeBytes(token).value).Some?
    ensures r.Ok? ==> k.deserialize(k.decompress(BaseX.DecodeBytes(token).value).value) == Some(r.value)
    ensures BaseX.DecodeBytes(token).Ok? && k.decompress(BaseX.DecodeBytes(token).value).None?
            ==> r == Err(ZstdFailed)
    ensures BaseX.DecodeBytes(token).Ok? && k.decompress(BaseX.DecodeBytes(token).value).Some?
            && k.deserialize(k.decompress(BaseX.DecodeBytes(token).value).value).None?
            ==> r == Err(BincodeFailed)
    ensures BaseX.DecodeBytes(token).Ok? && k.decompress(BaseX.DecodeBytes(token).value).Some?
            && k.deserialize(k.decompress(BaseX.DecodeBytes(token).value).value).Some?
            ==> r == Ok(k.deserialize(k.decompress(BaseX.DecodeBytes(token).value).value).value)
  {
    match BaseX.DecodeBytes(token)
    case Err(_) => Err(BaseXFailed)
    case Ok(compressed) =>
      match k.decompress(compressed)
      case None => Err(ZstdFailed)
      case Some(decompressed) =>
        match k.deserialize(decompressed)
        case None => Err(BincodeFailed)
        case Some(c) => Ok(c)
  }

  /** What `from_url_str` returns for the text `s`, given the stages and `PUBLIC_URL`. */
  function DecodeUrl(k: Stages, publicUrl: string, s: string): (c: PlaygroundConfig)
    ensures DecodeToken(k, StripPublicUrl(publicUrl, s)).Err? ==> c == DefaultConfig()
    ensures DecodeToken(k, StripPublicUrl(publicUrl, s)).Ok? ==> c == DecodeToken(k, StripPublicUrl(publicUrl, s)).value
  {
    match DecodeToken(k, StripPublicUrl(publicUrl, s))
    case Ok(c) => c
    case Err(_) => DefaultConfig()
  }

  /** `from_url_str`: strip the prefix, then run the stages, returning the default on the first failure. */
  method FromUrlStr(k: Stages, publicUrl: string, s0: string) returns (cfg: PlaygroundConfig)
    ensures cfg == DecodeUrl(k, publicUrl, s0)
    ensures DecodeToken(k, StripPublicUrl(publicUrl, s0)).Err? ==> cfg == DefaultConfig()
  {
    var s := s0;
    if |publicUrl| <= |s| && s[..|publicUrl|] == publicUrl {
      s := s[|publicUrl|..];
    }
    var compressed := BaseX.DecodeBytes(s);
    if compressed.Err? {
      return DefaultConfig();
    }
    var decompressed := k.decompress(compressed.value);
    if decompressed.None? {
      return DefaultConfig();
    }
    var decoded := k.deserialize(decompressed.value);
    if decoded.None? {
      return DefaultConfig();
    }
    cfg := decoded.value;
  }

  /** Any text holding a symbol outside the alphabet, once the prefix is gone, decodes to the default session. */
  lemma ForeignSymbolGivesDefault(k: Stages, publicUrl: string, s: string, i: nat)
    requires i < |StripPublicUrl(publicUrl, s)|
    requires StripPublicUrl(publicUrl, s)[i] !in BaseX.Alphabet
    ensures DecodeToken(k, StripPublicUrl(publicUrl, s)) == Err(BaseXFailed)
    ensures DecodeUrl(k, publicUrl, s) == DefaultConfig()
  {
    BaseX.DecodeBytesRejects(StripPublicUrl(publicUrl, s));
  }

  /** A '#' left after the prefix step makes the base-x stage fail, so the default session comes back. */
  lemma HashGivesDefault(k: Stages, publicUrl: string, s: string)
    requires '#' in StripPublicUrl(publicUrl, s)
    ensures DecodeUrl(k, publicUrl, s) == DefaultConfig()
  {
    BaseX.DecodeBytesRejects(StripPublicUrl(publicUrl, s));
  }

  /** When `PUBLIC_URL` holds a '#', no token starts with it, so a bare token is never cut. */
  lemma NoTokenStartsWithPublicUrl(k: Stages, publicUrl: string, c: PlaygroundConfig)
    requires '#' in publicUrl
    ensures !(publicUrl <= ToUrlStr(k, c))
    ensures StripPublicUrl(publicUrl, ToUrlStr(k, c)) == ToUrlStr(k, c)
  {
  }

  /** The prefix is stripped at most once: a full link and its bare token decode alike. */
  lemma PrefixTolerance(k: Stages, publicUrl: string, c: PlaygroundConfig)
    requires '#' in publicUrl
    ensures DecodeUrl(k, publicUrl, publicUrl + ToUrlStr(k, c)) == DecodeUrl(k, publicUrl, ToUrlStr(k, c))
  {
    var token := ToUrlStr(k, c);
    assert publicUrl <= publicUrl + token;
    assert (publicUrl + token)[|publicUrl|..] == token;
    NoTokenStartsWithPublicUrl(k, publicUrl, c);
  }

  /** Under the stage laws the three decoding stages undo `to_url_str` on a session with a subject. */
  lemma DecodeTokenOfToUrlStr(k: Stages, c: PlaygroundConfig)
    requires Lawful(k)
    requires c.subject != []
    ensures DecodeToken(k, ToUrlStr(k, c)) == Ok(c)
  {
    var bin := k.serialize(c);
    var compressed := k.compress(bin);
    BaseX.DecodeBytesOfEncodeBytes(compressed);
    assert k.decompress(compressed) == Some(bin);
    assert k.deserialize(bin) == Some(c);
  }

  /** `from_url_str(to_url_str(c)) == c`, for a bare token and for a full share link. */
  lemma RoundTrip(k: Stages, publicUrl: string, c: PlaygroundConfig)
    requires Lawful(k)
    requires '#' in publicUrl
    requires c.subject != []
    ensures DecodeUrl(k, publicUrl, ToUrlStr(k, c)) == c
    ensures DecodeUrl(k, publicUrl, publicUrl + ToUrlStr(k, c)) == c
  {
    NoTokenStartsWithPublicUrl(k, publicUrl, c);
    PrefixTolerance(k, publicUrl, c);
    DecodeTokenOfToUrlStr(k, c);
  }

  /** The round trip for the prefix build.rs actually produces, for any configured public URL. */
  lemma ShareLinkRoundTrip(k: Stages, configured: string, c: PlaygroundConfig)
    requires Lawful(k)
    requires c.subject != []
    ensures DecodeUrl(k, BuildPublicUrl(configured), BuildPublicUrl(configured) + ToUrlStr(k, c)) == c
  {
    RoundTrip(k, BuildPublicUrl(configured), c);
  }
}
