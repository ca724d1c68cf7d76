/**
 `TranslatorService`: gate on the lookup status, pick the Yoda or the
 Shakespeare translation from habitat and legendary flag, ask the
 translation API, and keep the untranslated description when that fails.
 */
module TranslatorService {
  import opened Models
  import Text
  import Utils

  /** The `TranslationEndpoint` enum. */
  datatype Endpoint = Shakespeare | Yoda

  /** `translationEndpoint.ToString()`. */
  function EndpointName(endpoint: Endpoint): string {
    match endpoint
    case Shakespeare => "Shakespeare"
    case Yoda => "Yoda"
  }

  /** The route segment: the enum name lower-cased. */
  function Route(endpoint: Endpoint): (r: string)
    ensures endpoint == Yoda ==> r == "yoda"
    ensures endpoint == Shakespeare ==> r == "shakespeare"
  {
    Text.Lower(EndpointName(endpoint))
  }

  const TranslateRoute: string := "/translate/"
  const TextParameter: string := "?text="

  /** The relative URL of the translation request; the text goes in verbatim. */
  function TranslationUrl(text: string, endpoint: Endpoint): (r: string)
    ensures Text.StartsWith(r, TranslateRoute + Route(endpoint) + TextParameter)
    ensures r[|TranslateRoute + Route(endpoint) + TextParameter|..] == text
  {
    TranslateRoute + Route(endpoint) + TextParameter + text
  }

  /** Reads a translation URL back into the endpoint and the text it carries. */
  function ParseTranslationUrl(url: string): Option<(Endpoint, string)> {
    var yoda := TranslateRoute + "yoda" + TextParameter;
    var shakespeare := TranslateRoute + "shakespeare" + TextParameter;
    if Text.StartsWith(url, yoda) then Some((Yoda, url[|yoda|..]))
    else if Text.StartsWith(url, shakespeare) then Some((Shakespeare, url[|shakespeare|..]))
    else None
  }

  /** The request URL names the chosen endpoint and carries the text unchanged. */
  lemma TranslationUrlRoundTrip(text: string, endpoint: Endpoint)
    ensures ParseTranslationUrl(TranslationUrl(text, endpoint)) == Some((endpoint, text))
  {
    var url := TranslationUrl(text, endpoint);
    var yoda := TranslateRoute + "yoda" + TextParameter;
    var shakespeare := TranslateRoute + "shakespeare" + TextParameter;
    match endpoint
    case Yoda =>
      assert url == yoda + text;
      assert url[..|yoda|] == yoda;
      assert url[|yoda|..] == text;
    case Shakespeare =>
      assert url == shakespeare + text;
      assert url[11] == 's' && yoda[11] == 'y';
      assert !Text.StartsWith(url, yoda);
      assert url[..|shakespeare|] == shakespeare;
      assert url[|shakespeare|..] == text;
  }

  /** "cave" spelled with any mix of upper- and lower-case letters, and nothing else. */
  predicate IsCaveIgnoringCase(h: string) {
    && |h| == 4
    && (h[0] == 'c' || h[0] == 'C')
    && (h[1] == 'a' || h[1] == 'A')
    && (h[2] == 'v' || h[2] == 'V')
    && (h[3] == 'e' || h[3] == 'E')
  }

  /** Lower-casing yields "cave" exactly for the case variants of "cave". */
  lemma LowerIsCave(h: string)
    ensures Text.Lower(h) == "cave" <==> IsCaveIgnoringCase(h)
  {
  }

  /**
   The routing rule: Yoda when the lower-cased habitat is exactly "cave" or
   the Pokémon is legendary, Shakespeare otherwise.
   */
  function ChooseEndpoint(habitat: string, isLegendary: bool): (r: Endpoint)
    ensures r == Yoda <==> IsCaveIgnoringCase(habitat) || isLegendary
    ensures r == Shakespeare <==> !IsCaveIgnoringCase(habitat) && !isLegendary
  {
    LowerIsCave(habitat);
    if Text.Lower(habitat) == "cave" || isLegendary then Yoda else Shakespeare
  }

  /** The rule only sees the habitat up to case. */
  lemma ChooseEndpointIgnoresCase(habitat: string, isLegendary: bool)
    ensures ChooseEndpoint(Text.Lower(habitat), isLegendary) == ChooseEndpoint(habitat, isLegendary)
  {
    Text.LowerIdempotent(habitat);
  }

  /** The examples of the routing rule: case-insensitive, but an exact match. */
  lemma ChooseEndpointExamples()
    ensures ChooseEndpoint("cave", false) == Yoda
    ensures ChooseEndpoint("CAVE", false) == Yoda
    ensures ChooseEndpoint("caves", false) == Shakespeare
    ensures ChooseEndpoint("mountain", false) == Shakespeare
    ensures ChooseEndpoint("rare", true) == Yoda
  {
  }

  /** The `contents` object of a translation response. */
  datatype Contents = Contents(translated: Option<string>)

  /** A deserialised translation response: `contents` may be absent. */
  datatype TranslationResponse = TranslationResponse(contents: Option<Contents>)

  /**
   `GetTranslationAsync` after the request: the translated text on a success
   status, null on any other status, on a body that does not deserialise and
   on any exception (a transport fault, a missing `contents`).
   */
  function GetTranslation(reply: HttpAnswer<TranslationResponse>): (r: Option<string>)
    ensures r.Some? ==> reply.Answered? && IsSuccessStatusCode(reply.code)
    ensures r.Some? <==>
      && reply.Answered? && IsSuccessStatusCode(reply.code)
      && reply.body.Some? && reply.body.value.contents.Some?
      && reply.body.value.contents.value.translated.Some?
    ensures r.Some? ==> r.value == reply.body.value.contents.value.translated.value
  {
    match reply
    case TransportFault => None
    case Answered(code, body) =>
      match body
      // `TranslationResponse.FromJson` threw: caught
      case None => None
      case Some(response) =>
        if IsSuccessStatusCode(code) then
          match response.contents
          // `translation.Contents` is null: caught
          case None => None
          case Some(contents) => contents.translated
        else None
  }

  /** `PokemonTranslated`: the status and, when it is OK, the response fields. */
  datatype PokemonTranslated = PokemonTranslated(status: int, payload: Option<PokemonDto>)

  /** The orchestrator's answer together with the translation URLs it requested. */
  datatype TranslationRun = TranslationRun(result: PokemonTranslated, requests: seq<string>)

  /** The Pokémon's lookup went through and the fields the translator reads are all there. */
  predicate Translatable(pokemon: Pokemon) {
    && pokemon.status == OK
    && pokemon.species.Some?
    && pokemon.species.value.habitat.Some?
    && Utils.SelectDescription(pokemon.species.value.entries).Success?
  }

  /**
   `GetTranslatedPokemonDescriptionWithConditions` once the lookup has
   answered `pokemon`; `reply` answers the translation request, when one is made.
   */
  function GetTranslatedPokemonDescription(pokemon: Pokemon, reply: HttpAnswer<TranslationResponse>): (r: Result<TranslationRun>)
    ensures pokemon.status == NotFound ==> r == Success(TranslationRun(PokemonTranslated(NotFound, None), []))
    ensures pokemon.status != NotFound && pokemon.status != OK ==>
      r == Success(TranslationRun(PokemonTranslated(InternalServerError, None), []))
    ensures pokemon.status == OK ==> (r.Success? <==> Translatable(pokemon))
    ensures pokemon.status == OK && pokemon.species.None? ==> r == Failure(NullSpecies)
    ensures pokemon.status == OK && pokemon.species.Some? && pokemon.species.value.habitat.None? ==>
      r == Failure(NullHabitat)
    ensures r.Success? && pokemon.status == OK ==>
      var species := pokemon.species.value;
      var original := Utils.SelectDescription(species.entries).value;
      var run := r.value;
      && run.result.status == OK
      && run.result.payload.Some?
      && run.result.payload.value.name == pokemon.name
      && run.result.payload.value.habitat == species.habitat.value
      && run.result.payload.value.isLegendary == species.isLegendary
      && run.requests == [TranslationUrl(original, ChooseEndpoint(species.habitat.value, species.isLegendary))]
      && run.result.payload.value.description
           == (if GetTranslation(reply).Some? then GetTranslation(reply).value else original)
  {
    if pokemon.status == NotFound then
      Success(TranslationRun(PokemonTranslated(NotFound, None), []))
    else if pokemon.status == OK then
      // lines 48-55 read the same fields as `PokemonToDTO`, in the same order
      match Utils.PokemonToDTO(pokemon)
      case Failure(f) => Failure(f)
      case Success(untranslated) =>
        var endpoint := ChooseEndpoint(untranslated.habitat, untranslated.isLegendary);
        var requests := [TranslationUrl(untranslated.description, endpoint)];
        match GetTranslation(reply)
        case None => Success(TranslationRun(PokemonTranslated(OK, Some(untranslated)), requests))
        case Some(translated) =>
          Success(TranslationRun(PokemonTranslated(OK, Some(untranslated.(description := translated))), requests))
    else
      Success(TranslationRun(PokemonTranslated(InternalServerError, None), []))
  }

  /** The status is always one of OK, NotFound and InternalServerError, and only OK carries fields. */
  lemma TranslatedStatusIsOneOfThree(pokemon: Pokemon, reply: HttpAnswer<TranslationResponse>)
    requires GetTranslatedPokemonDescription(pokemon, reply).Success?
    ensures var t := GetTranslatedPokemonDescription(pokemon, reply).value.result;
      && t.status in {OK, NotFound, InternalServerError}
      && (t.payload.Some? <==> t.status == OK)
      && (t.status == OK <==> pokemon.status == OK)
  {
  }

  /** A failed translation is absorbed: the answer is exactly what `PokemonToDTO` makes of the Pokémon, with status OK. */
  lemma FallbackIsUntranslatedDto(pokemon: Pokemon, reply: HttpAnswer<TranslationResponse>)
    requires Translatable(pokemon)
    requires GetTranslation(reply).None?
    ensures Utils.PokemonToDTO(pokemon).Success?
    ensures GetTranslatedPokemonDescription(pokemon, reply)
              == Success(TranslationRun(PokemonTranslated(OK, Some(Utils.PokemonToDTO(pokemon).value)),
                                        GetTranslatedPokemonDescription(pokemon, reply).value.requests))
  {
  }

  /** A translation that comes back replaces the description and nothing else. */
  lemma TranslationReplacesOnlyDescription(pokemon: Pokemon, reply: HttpAnswer<TranslationResponse>)
    requires Translatable(pokemon)
    requires GetTranslation(reply).Some?
    ensures Utils.PokemonToDTO(pokemon).Success?
    ensures GetTranslatedPokemonDescription(pokemon, reply).Success?
    ensures GetTranslatedPokemonDescription(pokemon, reply).value.result
              == PokemonTranslated(OK, Some(Utils.PokemonToDTO(pokemon).value.(description := GetTranslation(reply).value)))
  {
  }

  /** The one translation request names the endpoint the routing rule chose and carries the untranslated description. */
  lemma TranslationRequestNamesEndpoint(pokemon: Pokemon, reply: HttpAnswer<TranslationResponse>)
    requires Translatable(pokemon)
    ensures var requests := GetTranslatedPokemonDescription(pokemon, reply).value.requests;
      var species := pokemon.species.value;
      && |requests| == 1
      && ParseTranslationUrl(requests[0])
           == Some((ChooseEndpoint(species.habitat.value, species.isLegendary), Utils.PokemonToDTO(pokemon).value.description))
  {
    var species := pokemon.species.value;
    TranslationUrlRoundTrip(Utils.PokemonToDTO(pokemon).value.description,
                            ChooseEndpoint(species.habitat.value, species.isLegendary));
  }
}
