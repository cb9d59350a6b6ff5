/** The voices route of the voice changer: it refuses to run without a configured key,
    and otherwise lists the account's voices with their id, name, gender and accent,
    `Unknown` standing in for a missing label. */
module VoicesRoute {
  import opened Wrappers
  import JsText

  /** The key the SDK client falls back to, and the route treats as unset. */
  const Placeholder: string := "YOUR_API_KEY"
  const Unknown: string := "Unknown"
  const KeyMissing: string := "ElevenLabs API key not configured"
  const FetchFailed: string := "Failed to fetch voices"

  /** A voice as the vendor returns it: its labels are a string-to-string record. */
  datatype VendorVoice = VendorVoice(voiceId: string, name: Option<string>, labels: Option<map<string, string>>)

  /** A voice as the route lists it. */
  datatype VoiceEntry = VoiceEntry(id: string, name: Option<string>, gender: string, accent: string)

  datatype Response = Error(status: nat, error: string) | Voices(voices: seq<VoiceEntry>)

  /** The reply, and whether the vendor was asked for the voices. */
  datatype VoicesOutcome = VoicesOutcome(response: Response, called: bool)

  /** `labels?.[key] || 'Unknown'`. */
  function Label(labels: Option<map<string, string>>, key: string): (l: string)
    ensures l != ""
    ensures labels.Some? && key in labels.value && labels.value[key] != "" ==> l == labels.value[key]
    ensures !(labels.Some? && key in labels.value && labels.value[key] != "") ==> l == Unknown
  {
    if labels.Some? && key in labels.value && labels.value[key] != "" then labels.value[key] else Unknown
  }

  /** One listed voice: the vendor's id and name, and a non-empty gender and accent. */
  function Entry(v: VendorVoice): (e: VoiceEntry)
    ensures e.id == v.voiceId && e.name == v.name
    ensures e.gender != "" && e.accent != ""
  {
    VoiceEntry(v.voiceId, v.name, Label(v.labels, "gender"), Label(v.labels, "accent"))
  }

  /** The listing: one entry per vendor voice, in the same order, with the id and name
      carried over and gender and accent never empty. */
  function VoiceList(voices: seq<VendorVoice>): (list: seq<VoiceEntry>)
    ensures |list| == |voices|
    ensures forall i :: 0 <= i < |list| ==>
      list[i].id == voices[i].voiceId && list[i].name == voices[i].name &&
      list[i].gender == Label(voices[i].labels, "gender") && list[i].accent == Label(voices[i].labels, "accent")
  {
    seq(|voices|, i requires 0 <= i < |voices| => Entry(voices[i]))
  }

  /** `apiKey` is set and is not the placeholder. */
  predicate Configured(apiKey: Option<string>) {
    JsText.Truthy(apiKey) && apiKey.value != Placeholder
  }

  /** The route; `vendor` is the voices the SDK returned, or `None` when the call threw. */
  function ListVoices(apiKey: Option<string>, vendor: Option<seq<VendorVoice>>): (out: VoicesOutcome)
    ensures out.called <==> Configured(apiKey)
    ensures !Configured(apiKey) ==> out.response == Error(400, KeyMissing)
    ensures Configured(apiKey) && vendor.None? ==> out.response == Error(500, FetchFailed)
    ensures out.response.Voices? ==> vendor.Some? && |out.response.voices| == |vendor.value|
    ensures Configured(apiKey) && vendor.Some? ==> out.response == Voices(VoiceList(vendor.value))
  {
    if !Configured(apiKey) then VoicesOutcome(Error(400, KeyMissing), false)
    else
      match vendor
      case None => VoicesOutcome(Error(500, FetchFailed), true)
      case Some(voices) => VoicesOutcome(Voices(VoiceList(voices)), true)
  }

  /** Each of gender and accent is the voice's label when that label is present and
      non-empty, and `Unknown` otherwise; a voice with no labels is of unknown gender and
      accent. */
  lemma EntryDefaults(v: VendorVoice)
    ensures Entry(v).gender ==
      if v.labels.Some? && "gender" in v.labels.value && v.labels.value["gender"] != ""
      then v.labels.value["gender"] else Unknown
    ensures Entry(v).accent ==
      if v.labels.Some? && "accent" in v.labels.value && v.labels.value["accent"] != ""
      then v.labels.value["accent"] else Unknown
    ensures v.labels.None? ==> Entry(v).gender == Unknown && Entry(v).accent == Unknown
  {
  }

  /** Listing a concatenation lists each part in turn. */
  lemma VoiceListConcat(a: seq<VendorVoice>, b: seq<VendorVoice>)
    ensures VoiceList(a + b) == VoiceList(a) + VoiceList(b)
  {
    assert forall i :: 0 <= i < |a + b| ==> VoiceList(a + b)[i] == Entry((a + b)[i]);
  }
}
