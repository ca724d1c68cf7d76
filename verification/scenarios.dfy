/**
 Worked examples: the ditto lookup of the repository's tests, the locale
 selection example, and the routing of onix.
 */
module Scenarios {
  import opened Models
  import Text
  import Utils
  import PokemonService
  import TranslatorService
  import PokemonController

  /** The first entry whose language contains "en" wins, and each break character becomes one space. */
  lemma SelectionExample()
    ensures Utils.SelectDescription([FlavorTextEntry("a\nb", "ja"), FlavorTextEntry("c\r\nd", "en-US")])
              == Success("c  d")
  {
    var entries := [FlavorTextEntry("a\nb", "ja"), FlavorTextEntry("c\r\nd", "en-US")];
    assert !Utils.IsEnglish(entries[0]) by {
      assert !Text.StartsWith("ja", "en") by { assert "ja"[0] != "en"[0]; }
      assert "ja"[1..] == "a";
      assert !Text.Contains("a", "en") by { assert "a"[1..] == ""; }
    }
    assert Utils.IsEnglish(entries[1]) by {
      assert Text.OccursAt("en-US", "en", 0);
    }
    var n := Utils.Normalise("c\r\nd");
    assert n == "c  d" by {
      assert n[0] == 'c' && n[1] == ' ' && n[2] == ' ' && n[3] == 'd';
    }
  }

  // The ditto entry, assembled from short pieces: the verifier cannot reason character by
  // character about one 90-character literal, but it can about each piece.
  const DittoBefore: string := "It can " + "freely " + "recombine " + "its own " + "cellular " + "structure " + "to"
  const DittoAfter: string := "transform " + "into " + "other " + "life-forms."
  const DittoText: string := DittoBefore + "\n" + DittoAfter
  const DittoDescription: string := DittoBefore + " " + DittoAfter

  // The species link of the ditto body, with the scheme split off for the same reason.
  const DittoScheme: string := "https://"
  const DittoSpeciesLink: string := DittoScheme + "pokeapi.co/api/v2/pokemon-species/132/"

  function DittoSpecies(): Species {
    Species(Some("urban"), false, [FlavorTextEntry(DittoText, "en")])
  }

  /** The ditto lookup: a 200 whose body has the line feed of the English entry replaced by a space. */
  lemma DittoLookup(primaryCode: int, speciesCode: int)
    requires IsSuccessStatusCode(primaryCode) && IsSuccessStatusCode(speciesCode)
    ensures PokemonController.ServePokemon(
              "ditto",
              Answered(primaryCode, Some(PokemonService.PokemonJson(Some("ditto"), Some(DittoSpeciesLink)))),
              Answered(speciesCode, Some(DittoSpecies())))
            == PokemonController.OkObjectResult(PokemonDto(Some("ditto"), DittoDescription, "urban", false))
  {
    assert PokemonService.IsHttpLink(DittoSpeciesLink) by {
      var l := Text.Lower(DittoSpeciesLink);
      assert DittoSpeciesLink[..8] == DittoScheme;
      forall i | 0 <= i < 8
        ensures l[i] == DittoScheme[i]
      {
        assert DittoSpeciesLink[i] == DittoScheme[i];
        assert !Text.IsAsciiUpper(DittoScheme[i]) by {
          assert i == 0 || i == 1 || i == 2 || i == 3 || i == 4 || i == 5 || i == 6 || i == 7;
        }
      }
      assert l[..8] == DittoScheme;
    }
    assert Utils.IsEnglish(FlavorTextEntry(DittoText, "en")) by {
      assert Text.OccursAt("en", "en", 0);
    }
    assert Utils.Normalise(DittoText) == DittoDescription by {
      NoBreaksInPieces();
      Utils.NormaliseKeepsCleanText(DittoBefore);
      Utils.NormaliseKeepsCleanText(DittoAfter);
      Utils.NormaliseConcat(DittoBefore, "\n");
      Utils.NormaliseConcat(DittoBefore + "\n", DittoAfter);
      assert Utils.Normalise("\n") == " ";
    }
  }

  lemma NoBreaksInPieces()
    ensures forall i :: 0 <= i < |DittoBefore| ==> !Utils.IsLineBreak(DittoBefore[i])
    ensures forall i :: 0 <= i < |DittoAfter| ==> !Utils.IsLineBreak(DittoAfter[i])
  {
  }

  /** onix lives in a cave: its description goes to the Yoda route whether or not it is legendary. */
  lemma OnixRoutesToYoda(isLegendary: bool, entries: seq<FlavorTextEntry>, reply: HttpAnswer<TranslatorService.TranslationResponse>)
    requires exists j :: 0 <= j < |entries| && Utils.IsEnglish(entries[j])
    ensures var run := TranslatorService.GetTranslatedPokemonDescription(
              Pokemon(OK, Some("onix"), Some(Species(Some("cave"), isLegendary, entries))), reply);
      && run.Success?
      && run.value.result.status == OK
      && run.value.requests == [TranslatorService.TranslationUrl(Utils.SelectDescription(entries).value, TranslatorService.Yoda)]
  {
    assert TranslatorService.ChooseEndpoint("cave", isLegendary) == TranslatorService.Yoda by {
      TranslatorService.LowerIsCave("cave");
    }
  }
}
