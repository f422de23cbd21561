/** The scenario picker's display names: a scenario file name loses its `.json`, is
    split at its hyphens, and each piece becomes a word, spelled in capitals when it is
    one of the known acronyms (in any case) and capitalised otherwise. */
module DisplayName {
  import opened Strings

  /** The pieces spelled in capitals, compared against the upper-cased piece. */
  const Acronyms: seq<string> := ["B2B", "B2C", "VAT", "FX", "ID", "API", "USD", "IDR"]

  /** The display word of one hyphen-separated piece. It keeps the piece's length and
      its letters, changing only their case. */
  function Word(part: string): (w: string)
    ensures |w| == |part|
    ensures forall i :: 0 <= i < |part| ==> UpperChar(w[i]) == UpperChar(part[i])
    ensures Upper(part) in Acronyms ==> forall i :: 0 <= i < |w| ==> !IsLowerAscii(w[i])
    ensures Upper(part) !in Acronyms && |part| > 0 ==> !IsLowerAscii(w[0]) && w[0] == UpperChar(part[0])
    ensures Upper(part) !in Acronyms ==> forall i :: 1 <= i < |part| ==> w[i] == LowerChar(part[i])
  {
    var u := Upper(part);
    if u in Acronyms then
      assert forall i :: 0 <= i < |u| ==> !IsLowerAscii(u[i]);
      u
    else
      var w := Capitalize(part);
      assert forall i :: 0 <= i < |part| ==> UpperChar(w[i]) == UpperChar(part[i]) by {
        forall i | 0 <= i < |part| ensures UpperChar(w[i]) == UpperChar(part[i]) {
          if i > 0 {
            assert w[i] == LowerChar(part[i]);
          }
        }
      }
      w
  }

  function Words(parts: seq<string>): (r: seq<string>)
    ensures |r| == |parts|
    ensures forall i :: 0 <= i < |parts| ==> r[i] == Word(parts[i])
  {
    seq(|parts|, i requires 0 <= i < |parts| => Word(parts[i]))
  }

  /** `filename_to_display_name`: every `.json` removed, the rest split at `-`, the
      words joined with single spaces. */
  function FileDisplayName(filename: string): (r: string)
    ensures '-' !in r
  {
    var parts := Split(ReplaceAll(filename, ".json", ""), '-');
    var words := Words(parts);
    forall i | 0 <= i < |words| ensures '-' !in words[i] {
      WordKeeps(parts[i], '-');
    }
    JoinAvoids(words, " ", '-');
    Join(words, " ")
  }

  /** A character that is not a letter stays where it was and appears nowhere else. */
  lemma WordKeeps(part: string, c: char)
    requires !IsLowerAscii(c) && !IsUpperAscii(c)
    ensures forall i :: 0 <= i < |part| ==> (Word(part)[i] == c <==> part[i] == c)
  {
    var w := Word(part);
    forall i | 0 <= i < |part| ensures w[i] == c <==> part[i] == c {
      assert UpperChar(w[i]) == UpperChar(part[i]);
    }
  }

  /** A join of pieces and a separator none of which holds `c` does not hold `c`. */
  lemma {:induction false} JoinAvoids(parts: seq<string>, sep: string, c: char)
    requires forall i :: 0 <= i < |parts| ==> c !in parts[i]
    requires c !in sep
    ensures c !in Join(parts, sep)
  {
    if |parts| > 1 {
      JoinAvoids(parts[1..], sep, c);
    }
  }

  /** The word depends on the piece only up to case. */
  lemma WordIgnoresCase(p: string, q: string)
    requires Upper(p) == Upper(q)
    ensures Word(p) == Word(q)
  {
    assert |p| == |q|;
    if Upper(p) !in Acronyms && |p| > 0 {
      var a, b := Capitalize(p), Capitalize(q);
      forall i | 0 <= i < |a| ensures a[i] == b[i] {
        assert Upper(p)[i] == Upper(q)[i];
        SameUpperSameLower(p[i], q[i]);
      }
    }
  }

  /** ASCII characters with the same upper case have the same upper and lower case. */
  lemma SameUpperSameLower(a: char, b: char)
    requires UpperChar(a) == UpperChar(b)
    ensures LowerChar(a) == LowerChar(b)
  {
  }

  /** Making a word is idempotent: a display word is its own display word. */
  lemma WordIdempotent(part: string)
    ensures Word(Word(part)) == Word(part)
  {
    var w := Word(part);
    assert Upper(w) == Upper(part) by {
      forall i | 0 <= i < |w| ensures Upper(w)[i] == Upper(part)[i] {
        assert UpperChar(w[i]) == UpperChar(part[i]);
      }
    }
    WordIgnoresCase(w, part);
  }

  /** Removing every `pat` from a text that ends in `pat` and has no other character
      of `pat`'s first kind leaves the stem. */
  lemma {:induction false} ReplaceSuffix(stem: string, pat: string)
    requires |pat| > 0 && pat[0] !in stem
    ensures ReplaceAll(stem + pat, pat, "") == stem
  {
    var s := stem + pat;
    if |stem| == 0 {
      assert s == pat;
      assert s[|pat|..] == "";
    } else {
      assert s[..|pat|] != pat by {
        assert s[0] == stem[0];
      }
      assert s[1..] == stem[1..] + pat;
      ReplaceSuffix(stem[1..], pat);
    }
  }

  /** For a name `stem + ".json"` with no dot in the stem, the display name is the
      words of the stem's hyphen-separated pieces, and splitting it at spaces gives back
      exactly those words when the stem has no space. */
  lemma DisplayNameOfStem(stem: string)
    requires '.' !in stem
    ensures FileDisplayName(stem + ".json") == Join(Words(Split(stem, '-')), " ")
    ensures ' ' !in stem ==> Split(FileDisplayName(stem + ".json"), ' ') == Words(Split(stem, '-'))
    ensures |Words(Split(stem, '-'))| == CountChar(stem, '-') + 1
  {
    StemDisplayName(stem);
    if ' ' !in stem {
      var parts := Split(stem, '-');
      var words := Words(parts);
      forall i | 0 <= i < |words| ensures ' ' !in words[i] {
        WordKeeps(parts[i], ' ');
        assert ' ' !in parts[i] by {
          JoinPieceIn(parts, "-", i, ' ');
        }
      }
      SplitJoin(words, ' ');
    }
  }

  /** The `.json` of `stem + ".json"` goes, and the stem's pieces become the words. */
  lemma StemDisplayName(stem: string)
    requires '.' !in stem
    ensures FileDisplayName(stem + ".json") == Join(Words(Split(stem, '-')), " ")
  {
    ReplaceSuffix(stem, ".json");
  }

  /** Every piece of a join is a slice of it, so a character absent from the join is
      absent from every piece. */
  lemma {:induction false} JoinPieceIn(parts: seq<string>, sep: string, i: nat, c: char)
    requires i < |parts|
    ensures c in parts[i] ==> c in Join(parts, sep)
  {
    if |parts| > 1 {
      var j, rest := Join(parts, sep), Join(parts[1..], sep);
      assert j == parts[0] + sep + rest;
      if i > 0 {
        JoinPieceIn(parts[1..], sep, i - 1, c);
        assert j[|parts[0]| + |sep|..] == rest;
      } else {
        assert j[..|parts[0]|] == parts[0];
      }
    }
  }

  /** An acronym piece comes out in capitals whatever its case; another piece comes
      out capitalised. */
  lemma WordExamples()
    ensures Word("b2b") == "B2B"
    ensures Word("basic") == "Basic"
  {
    AcronymWord();
    BasicWord();
  }

  lemma AcronymWord()
    ensures Word("b2b") == "B2B"
  {
    assert Upper("b2b") == "B2B";
  }

  lemma BasicWord()
    ensures Word("basic") == "Basic"
  {
    assert Upper("basic") == "BASIC";
    assert "basic"[1..] == "asic";
    assert Lower("asic") == "asic";
  }

  /** A piece that is not an acronym comes out capitalised; a piece with no letter
      comes out as it was. */
  lemma WordOf(part: string, expected: string)
    requires Upper(part) !in Acronyms && |part| > 0
    requires |expected| == |part| && expected[0] == UpperChar(part[0])
    requires forall i :: 1 <= i < |part| ==> expected[i] == LowerChar(part[i])
    ensures Word(part) == expected
  {
  }

  /** The pieces of the documented file names. */
  lemma DocumentedWords()
    ensures Word("001") == "001" && Word("123456") == "123456"
    ensures Word("single") == "Single" && Word("item") == "Item" && Word("pricing") == "Pricing"
    ensures Word("affiliate") == "Affiliate" && Word("case") == "Case" && Word("simple") == "Simple"
  {
    NumberWords();
    PricingWords();
    CaseWords();
  }

  /** Pieces without a letter are kept as they are. */
  lemma NumberWords()
    ensures Word("001") == "001" && Word("123456") == "123456"
  {
    WordOf("001", "001");
    WordOf("123456", "123456");
  }

  lemma PricingWords()
    ensures Word("single") == "Single" && Word("item") == "Item" && Word("pricing") == "Pricing"
  {
    WordOf("single", "Single");
    WordOf("item", "Item");
    WordOf("pricing", "Pricing");
  }

  lemma CaseWords()
    ensures Word("affiliate") == "Affiliate" && Word("case") == "Case" && Word("simple") == "Simple"
  {
    WordOf("affiliate", "Affiliate");
    WordOf("case", "Case");
    WordOf("simple", "Simple");
  }

  /** A file name built from pieces with no `-` and no `.`, joined with `-` and ended by
      `.json`, is shown as the words of exactly those pieces joined with spaces. */
  lemma DisplayNameOfPieces(parts: seq<string>)
    requires |parts| > 0
    requires forall i :: 0 <= i < |parts| ==> '-' !in parts[i] && '.' !in parts[i]
    ensures FileDisplayName(Join(parts, "-") + ".json") == Join(Words(parts), " ")
  {
    var stem := Join(parts, "-");
    assert '.' !in stem by {
      JoinAvoids(parts, "-", '.');
    }
    assert Split(stem, '-') == parts by {
      SplitJoin(parts, '-');
    }
    StemDisplayName(stem);
  }

  /** `simple-pricing.json` is shown as `Simple Pricing`. */
  lemma SimplePricingExample()
    ensures FileDisplayName("simple-pricing.json") == "Simple Pricing"
  {
    var parts := ["simple", "pricing"];
    DisplayNameOfPieces(parts);
    SimplePricingName();
    SimplePricingWordList();
    SimplePricingWords();
  }

  lemma SimplePricingName()
    ensures Join(["simple", "pricing"], "-") + ".json" == "simple-pricing.json"
  {
    JoinTwo("simple", "pricing", "-");
  }

  lemma SimplePricingWords()
    ensures Join(["Simple", "Pricing"], " ") == "Simple Pricing"
  {
    JoinTwo("Simple", "Pricing", " ");
  }

  lemma SimplePricingWordList()
    ensures Words(["simple", "pricing"]) == ["Simple", "Pricing"]
  {
    PricingWords();
    CaseWords();
  }

  /** `001-basic-single-item-pricing.json` is shown as `001 Basic Single Item Pricing`. */
  lemma BasicPricingExample()
    ensures FileDisplayName("001-basic-single-item-pricing.json") == "001 Basic Single Item Pricing"
  {
    var parts := ["001", "basic", "single", "item", "pricing"];
    DisplayNameOfPieces(parts);
    BasicPricingName();
    BasicPricingWordList();
    BasicPricingWords();
  }

  lemma BasicPricingName()
    ensures Join(["001", "basic", "single", "item", "pricing"], "-") + ".json" == "001-basic-single-item-pricing.json"
  {
    JoinTwo("item", "pricing", "-");
    JoinCons("single", ["item", "pricing"], "-");
    JoinCons("basic", ["single", "item", "pricing"], "-");
    JoinCons("001", ["basic", "single", "item", "pricing"], "-");
  }

  lemma BasicPricingWords()
    ensures Join(["001", "Basic", "Single", "Item", "Pricing"], " ") == "001 Basic Single Item Pricing"
  {
    JoinTwo("Item", "Pricing", " ");
    JoinCons("Single", ["Item", "Pricing"], " ");
    JoinCons("Basic", ["Single", "Item", "Pricing"], " ");
    JoinCons("001", ["Basic", "Single", "Item", "Pricing"], " ");
  }

  /** `123456-b2b-affiliate-case.json` is shown as `123456 B2B Affiliate Case`. */
  lemma AffiliateCaseExample()
    ensures FileDisplayName("123456-b2b-affiliate-case.json") == "123456 B2B Affiliate Case"
  {
    var parts := ["123456", "b2b", "affiliate", "case"];
    DisplayNameOfPieces(parts);
    AffiliateCaseName();
    AffiliateCaseWordList();
    AffiliateCaseWords();
  }

  lemma AffiliateCaseName()
    ensures Join(["123456", "b2b", "affiliate", "case"], "-") + ".json" == "123456-b2b-affiliate-case.json"
  {
    JoinTwo("affiliate", "case", "-");
    JoinCons("b2b", ["affiliate", "case"], "-");
    JoinCons("123456", ["b2b", "affiliate", "case"], "-");
  }

  lemma AffiliateCaseWords()
    ensures Join(["123456", "B2B", "Affiliate", "Case"], " ") == "123456 B2B Affiliate Case"
  {
    JoinTwo("Affiliate", "Case", " ");
    JoinCons("B2B", ["Affiliate", "Case"], " ");
    JoinCons("123456", ["B2B", "Affiliate", "Case"], " ");
  }

  lemma BasicPricingWordList()
    ensures Words(["001", "basic", "single", "item", "pricing"]) == ["001", "Basic", "Single", "Item", "Pricing"]
  {
    NumberWords();
    BasicWord();
    PricingWords();
  }

  lemma AffiliateCaseWordList()
    ensures Words(["123456", "b2b", "affiliate", "case"]) == ["123456", "B2B", "Affiliate", "Case"]
  {
    NumberWords();
    AcronymWord();
    CaseWords();
  }
}
