# PokedexApi lookup-and-translate core, in Dafny

PokedexApi answers `GET pokemon/{name}` with a Pokémon's name, habitat, legendary flag and one English description. It has a second service that rewrites that description in Yoda's or Shakespeare's style. This project models the logic behind both as pure Dafny functions:

- `Utils.PokemonToDTO` (module `Utils`) picks the first flavour text whose language name contains `"en"`. It turns every `\n`, `\r` and `\f` into one space, and copies name, habitat and the legendary flag across.
- `PokemonService.GetPokemon` / `GetPokemonSpecies` (module `PokemonService`) look up the Pokémon, then the species its body links to. The two answers collapse into OK, NotFound or InternalServerError. A 404 on the species link becomes InternalServerError.
- `TranslatorService.GetTranslatedPokemonDescriptionWithConditions` / `GetTranslationAsync` (module `TranslatorService`) gate on the lookup status first. They then route to Yoda when the lower-cased habitat is `"cave"` or the Pokémon is legendary, and to Shakespeare otherwise. Any failed translation keeps the untranslated description with status OK.
- `PokemonController.GetPokemon` (module `PokemonController`) turns the service status into a 404, a 200 carrying the DTO, or a 500.

Module `Text` holds the .NET string operations these use: ordinal `Contains`, one-character `Replace`, and `ToLower` restricted to ASCII. Module `Models` holds the records. Module `Pipeline` composes the two services. Module `Scenarios` holds the worked examples from the repository's tests.

Every HTTP exchange is an input value, `HttpAnswer<T> = Answered(code, body) | TransportFault`. A `body` of `None` is a response that did not deserialise. The service functions also return the URLs they requested, in order. This makes "no species lookup was made" and "no translation was asked for" statements about the result.

A C# reference that the code may leave null is an `Option`. An exception the code does not catch is a `Fault` in a `Result`. There are three: a null species, a null habitat, and no English entry. The controller passes such a fault on as `UnhandledFault`, which the web framework answers with 500. HTTP statuses are `int` values, so a service status other than 200 and 404 can still reach the controller.

The model follows the code at three points where a reader might expect something else:

- A Pokémon whose species has no habitat does not route to Shakespeare. `Species.Habitat.Name` is dereferenced unguarded (PokedexApi/Utils/Utils.cs:18, PokedexApi/Services/TranslatorService.cs:50), so the model yields the `NullHabitat` fault.
- A translation reply is judged by its HTTP status alone. A success status whose body has `contents.translated` is used even if the body also carries an `error` object (PokedexApi/Services/TranslatorService.cs:103-105), so the model has no `error` field.
- A body missing `contents` on a success status is not a separate error. The null dereference is caught like any other exception, and the original description is kept.

The translator builds its response fields with the same expression as `PokemonToDTO` (PokedexApi/Services/TranslatorService.cs:48-55 repeats PokedexApi/Utils/Utils.cs:16-22, field for field and in the same order). The model therefore calls `Utils.PokemonToDTO` in both places. `TranslatorService.FallbackIsUntranslatedDto` states the resulting agreement.

## Model

| member | source | states |
|---|---|---|
| Text.Lower | PokedexApi/Services/TranslatorService.cs:59 | `ToLower` on ASCII: same length, no upper-case letter left, every other character kept in place, upper-case letters moved down by 32 |
| Text.ReplaceChar | PokedexApi/Utils/Utils.cs:22 | one `Replace` of a one-character string: same length, each `from` becomes `to`, everything else unchanged, no `from` left when `from != to` |
| Text.Contains | PokedexApi/Utils/Utils.cs:22 | ordinal `Contains` is true exactly when the needle occurs at some index of the haystack |
| Utils.FindEnglish | PokedexApi/Utils/Utils.cs:22 | `Find` returns the first entry in list order whose language contains "en"; it finds nothing exactly when no entry matches |
| Utils.Normalise | PokedexApi/Utils/Utils.cs:22 | the three chained `Replace` calls keep the length, turn each `\n`, `\r`, `\f` into one space, keep every other character in place, and leave no line break |
| Utils.NormaliseIdempotent | PokedexApi/Utils/Utils.cs:22 | normalising normalised text changes nothing |
| Utils.NormaliseKeepsCleanText | PokedexApi/Utils/Utils.cs:22 | text without `\n`, `\r`, `\f` comes out unchanged |
| Utils.NormaliseConcat | PokedexApi/Utils/Utils.cs:22 | normalisation distributes over concatenation (it works character by character) |
| Utils.SelectDescription | PokedexApi/Utils/Utils.cs:22 | the description is the normalised text of the first English entry; with no English entry the selection faults and yields no text |
| Utils.SelectDescriptionIgnoresOthers | PokedexApi/Utils/Utils.cs:22 | the first English entry decides: whatever follows it, later English entries included, does not change the description |
| Utils.PokemonToDTO | PokedexApi/Utils/Utils.cs:14-24 | name, habitat and legendary flag are copied and the description is the first English entry normalised; a null species, a null habitat, or no English entry fault, in that order |
| PokemonService.GetPokemonSpecies | PokedexApi/Services/PokemonService.cs:76-108 | the species detail comes back only for a success status with a deserialised body; a 404, another status, a bad body or a fault give null |
| PokemonService.PokemonUrl | PokedexApi/Services/PokemonService.cs:33 | the lookup URL is `/api/v2/pokemon/` followed by the name, unchanged |
| PokemonService.GetPokemon | PokedexApi/Services/PokemonService.cs:26-74 | the status is one of 200/404/500; 404 exactly when the primary lookup answered 404; the species link from the primary body is requested exactly when the primary lookup succeeded and the link is an http(s) link; OK exactly when both lookups succeed, with the species detail in place |
| PokemonService.NonHttpSpeciesLinkIsServerError | PokedexApi/Services/PokemonService.cs:80-106 | a species link that is relative or not http(s) makes `AbsoluteUri` or the request throw; the catch yields null, so the lookup is InternalServerError after the one primary request |
| PokemonService.SpeciesNotFoundIsServerError | PokedexApi/Services/PokemonService.cs:56-88 | a 404 on the species link makes the lookup InternalServerError, not NotFound |
| PokemonService.SpeciesIrrelevantWithoutPrimary | PokedexApi/Services/PokemonService.cs:34-56 | without a successful primary lookup the species answer has no influence on the result |
| TranslatorService.Route | PokedexApi/Services/TranslatorService.cs:95 | the route segment is the lower-cased enum name: "yoda" or "shakespeare" |
| TranslatorService.TranslationUrl | PokedexApi/Services/TranslatorService.cs:95-96 | the URL string is `/translate/`, the route, `?text=`, then the text character for character |
| TranslatorService.TranslationUrlRoundTrip | PokedexApi/Services/TranslatorService.cs:95-96 | the interpolated URL string splits back into the route's endpoint and the text as interpolated; this is about the string, not about what a server decodes from it |
| TranslatorService.LowerIsCave | PokedexApi/Services/TranslatorService.cs:59 | the lower-cased habitat equals "cave" exactly when the habitat is "cave" in any mix of letter cases |
| TranslatorService.ChooseEndpoint | PokedexApi/Services/TranslatorService.cs:57-66 | Yoda exactly when the habitat is "cave" ignoring case or the Pokémon is legendary; Shakespeare exactly otherwise |
| TranslatorService.ChooseEndpointIgnoresCase | PokedexApi/Services/TranslatorService.cs:59 | routing a lower-cased habitat gives the same endpoint as routing the original |
| TranslatorService.ChooseEndpointExamples | PokedexApi/Services/TranslatorService.cs:57-66 | "cave" and "CAVE" route to Yoda, "caves" and "mountain" to Shakespeare, a legendary "rare" to Yoda |
| TranslatorService.GetTranslation | PokedexApi/Services/TranslatorService.cs:101-117 | text comes back only on a success status whose body deserialised with `contents.translated` present; any other status, a bad body or an exception give null |
| TranslatorService.GetTranslatedPokemonDescription | PokedexApi/Services/TranslatorService.cs:36-89 | NotFound and any non-OK status pass through with no translation request; on OK the fields are copied, exactly one request goes to the routed endpoint with the untranslated description, and the description is the translation if one came back and the original otherwise, with status OK |
| TranslatorService.TranslatedStatusIsOneOfThree | PokedexApi/Services/TranslatorService.cs:40-88 | the status is one of OK, NotFound and InternalServerError; fields are present exactly when it is OK; it is OK exactly when the lookup was OK |
| TranslatorService.FallbackIsUntranslatedDto | PokedexApi/Services/TranslatorService.cs:71-78 | when translation fails the answer is exactly what `PokemonToDTO` makes of the Pokémon, with status OK |
| TranslatorService.TranslationReplacesOnlyDescription | PokedexApi/Services/TranslatorService.cs:79-85 | when translation succeeds only the description differs from `PokemonToDTO`'s, and the status is OK |
| TranslatorService.TranslationRequestNamesEndpoint | PokedexApi/Services/TranslatorService.cs:57-68 | there is a single translation request, and its URL string splits into the routed endpoint and the untranslated description as interpolated |
| PokemonController.GetPokemon | PokedexApi/Controllers/PokemonController.cs:31-47 | NotFound gives 404; OK gives 200 with exactly `PokemonToDTO`'s body (or the fault it raises); any other status gives a 500 problem |
| PokemonController.ResponseStatusIsOneOfThree | PokedexApi/Controllers/PokemonController.cs:35-46 | every service answer yields exactly one of 404, 200, 500; 404 exactly for NotFound; 200 exactly for OK with a DTO |
| PokemonController.ServePokemon | PokedexApi/Controllers/PokemonController.cs:33-46 | over the real service: 404 exactly when the primary lookup answered 404; a 200 body carries the primary name and the species habitat and flag; a null species never faults here |
| Pipeline.TranslatePokemon | PokedexApi/Services/TranslatorService.cs:38-88 | over the real lookup the status is one of three, a null species never faults, and a run makes one request (name not found or unusable), or two or three |
| Pipeline.UnknownNameIsNotFound | PokedexApi/Services/TranslatorService.cs:38-44 | a 404 on the primary lookup ends as NotFound after that one request: no species lookup and no translation request |
| Pipeline.SpeciesNotFoundStopsPipeline | PokedexApi/Services/PokemonService.cs:59-63 | a 404 on an http(s) species link ends the translated lookup as InternalServerError after two requests, with no translation request |
| Pipeline.TranslationNeverFailsTheRequest | PokedexApi/Services/TranslatorService.cs:68-85 | once both lookups succeed with a habitat and an English entry, the answer is OK whatever the translation API does, after exactly three requests |
| Scenarios.SelectionExample | PokedexApi/Utils/Utils.cs:22 | entries `("a\nb", "ja")`, `("c\r\nd", "en-US")` select `"c  d"` |
| Scenarios.DittoLookup | PokedexApi.Tests/PokemonSmokeTests.cs:124-145 | the ditto lookup, with its absolute species link, answers 200 with name "ditto", habitat "urban", not legendary, and the line feed of its description turned into a space |
| Scenarios.OnixRoutesToYoda | PokedexApi.Tests/PokemonSmokeTests.cs:153-173 | a Pokémon in a "cave" habitat is translated through the Yoda route whether or not it is legendary |

## Left out

- HTTP transport and JSON: `HttpClient`, base addresses and Newtonsoft deserialisation. Each answer is an `HttpAnswer` input. A body that does not deserialise, or deserialises to null, is `body == None`.
- Null fields inside a deserialised body other than those modelled: a null `name` is kept as `None`. A null `flavor_text_entries`, `flavor_text` or `language.name`, or a habitat object with a null `name`, are not modelled. The repository's upstream data always carries them.
- The Polly retry policy in Startup.cs. It is a transport-level wrapper from a library that is not part of this model.
- Logging, hosting, Swagger, health checks, `DefaultController` and Program.cs.
- Async/await and the `.Result` blocking. Calls are sequential function applications, and the functions are pure, so repeating a lookup with the same upstream answers gives the same result by construction.
- The `pokemon/translated/{name}` action. It returns `Ok("ok")` and never calls the translator, so `Pipeline.TranslatePokemon` models the translator directly.
- The unit test's three-argument controller constructor. It does not match the two-argument constructor and is not behaviour.
- The concrete translated strings in the skipped smoke tests. The external translation API produces them; only the routing behind them is modelled.
- Culture-sensitive lower-casing. `ToLower` is modelled on ASCII letters only.
- Reserved characters in the translated text. The source interpolates the description into `?text=` without encoding it, so a `&`, `#`, `+` or `%` in it would change the query a server sees. The model states only that the URL string carries the text verbatim; how a server would parse such a query is not modelled.
- PokemonService.GetPokemon: the species link is requested as written once it has an http or https scheme, in any letter case. The canonical form `AbsoluteUri` produces (lower-cased scheme and host, a dropped default port, escaped characters) is not modelled. Nor are the exceptions a malformed absolute link raises while deserialising; they are caught and modelled as a body that did not deserialise.
- Scenarios.DittoLookup: the ditto texts are written as concatenations of short pieces that spell the test's strings. The proof does not compare them with the single literals of the tests.
