/** What the two Exa routes share: the request body and environment they read, the
    vendor calls they make, how a call's outcome is handed in, and the `data:` URL that
    carries the synthesized speech. */
module Exa {
  import opened Wrappers
  import JsText
  import Base64

  /** The Adam voice used for all speech. */
  const VoiceId: string := "pNInz6obpgDQGcFmaJgB"

  const AudioPrefix: string := "data:audio/mpeg;base64,"

  const UnexpectedError: string := "An unexpected error occurred"
  const SpeechFailed: string := "Failed to convert text to speech"
  const MissingBody: string := "Missing request body"

  /** The request: no body stream, a body that `req.json()` cannot read (with the
      error's message), or the parsed field the route destructures. */
  datatype Body<T> = NoBody | Unparsable(message: string) | Parsed(field: T)

  /** The two keys read from the environment. */
  datatype Env = Env(exaKey: Option<string>, elevenLabsKey: Option<string>)

  /** A call to a vendor, with the parts of its payload the route computes. */
  datatype Call =
    | Contents(ids: seq<string>)
    | Search(query: string, numResults: nat)
    | Speech(voiceId: string, text: string)

  /** The outcome of one `axios.post`: it threw (with the details the route reports,
      `error.response?.data?.error || error.message`), or it answered with `data`. */
  datatype Outcome<T> = Failed(details: string) | Answered(data: T)

  /** A route's reply together with the vendor calls it made, in order. */
  datatype Handled<R> = Handled(response: R, calls: seq<Call>)

  /** Both keys are set to a non-empty value. */
  predicate KeysSet(env: Env) {
    JsText.Truthy(env.exaKey) && JsText.Truthy(env.elevenLabsKey)
  }

  /** The body was read, its one field (the url or the topic) is set, and both keys
      are set: the checks a route makes before any call. */
  predicate Accepted(body: Body<Option<string>>, env: Env) {
    body.Parsed? && JsText.Truthy(body.field) && KeysSet(env)
  }

  /** `data:audio/mpeg;base64,` followed by the base 64 encoding of the audio: a data URL
      in the sense of RFC 2397 whose payload decodes back to exactly those bytes. */
  function AudioUrl(audio: seq<Base64.byte>): (url: string)
    ensures AudioPrefix <= url
    ensures Base64.Decode(url[|AudioPrefix|..]) == Some(audio)
    ensures forall i :: |AudioPrefix| <= i < |url| ==> Base64.InAlphabet(url[i]) || url[i] == Base64.Pad
  {
    var payload := Base64.Encode(audio);
    Base64.DecodeEncode(audio);
    Base64.EncodeAlphabet(audio);
    Prefixed(AudioPrefix, payload);
    AudioPrefix + payload
  }

  /** A prefixed string: the prefix, and then the rest character by character. */
  lemma Prefixed(p: string, s: string)
    ensures p <= p + s
    ensures (p + s)[|p|..] == s
    ensures forall i :: |p| <= i < |p + s| ==> (p + s)[i] == s[i - |p|]
  {
  }

  /** Different audio gives different URLs. */
  lemma AudioUrlInjective(a: seq<Base64.byte>, b: seq<Base64.byte>)
    requires AudioUrl(a) == AudioUrl(b)
    ensures a == b
  {
    assert Base64.Decode(AudioUrl(a)[|AudioPrefix|..]) == Some(a);
    assert Base64.Decode(AudioUrl(b)[|AudioPrefix|..]) == Some(b);
  }
}
