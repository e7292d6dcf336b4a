/**
 * Concrete runs of the provider lookup and the A/C classifier on labels and
 * bus types of the kind the scraped table holds.
 */
module Scenarios {
  import opened Text
  import opened Transport
  import opened RoutesView

  /** Any label that lower-cases to "apsrtc" is matched by the second entry and no earlier one. */
  lemma MatchesApsrtc(provider: string)
    requires Lower(provider) == "apsrtc"
    ensures TransportInfo(provider) == ("APSRTC", "Andhra Pradesh")
  {
    var e := TransportMapping[1];
    assert Lower(e.keyword) == "apsrtc";
    assert Lower(provider)[..6] == Lower(e.keyword);
    assert |Lower(TransportMapping[0].keyword)| > |Lower(provider)|;
    assert FirstMatch(TransportMapping, provider, 1);
    LookupFirstMatch(TransportMapping, provider, 1);
  }

  /** A provider label is looked up case-insensitively. */
  lemma LookupKnownProvider()
    ensures TransportInfo("APSRTC") == ("APSRTC", "Andhra Pradesh")
    ensures TransportInfo("apsrtc") == ("APSRTC", "Andhra Pradesh")
  {
    assert Lower("APSRTC") == "apsrtc";
    MatchesApsrtc("APSRTC");
    assert Lower("apsrtc") == "apsrtc";
    MatchesApsrtc("apsrtc");
  }

  /** A keyword that has a character the label lacks cannot match it. */
  lemma MissingChar(e: Entry, provider: string, c: char)
    requires c in Lower(e.keyword) && c !in Lower(provider)
    ensures !Matches(e, provider)
  {
    if Matches(e, provider) {
      ContainsChars(Lower(provider), Lower(e.keyword), c);
    }
  }

  lemma UnknownText()
    ensures Lower("Unknown Operator") == "unknown operator"
  {
  }

  lemma UnknownMisses(j: int)
    requires 0 <= j < |TransportMapping|
    ensures !Matches(TransportMapping[j], "Unknown Operator")
  {
    var p := "Unknown Operator";
    var e := TransportMapping[j];
    UnknownText();
    if j == 1 || j == 4 {
      assert Lower(e.keyword)[if j == 1 then 2 else 1] == 's';
      assert 's' !in "unknown operator";
      MissingChar(e, p, 's');
    } else if j == 6 {
      assert Lower(e.keyword)[0] == 'h';
      assert 'h' !in "unknown operator";
      MissingChar(e, p, 'h');
    } else if j == 9 {
      assert Lower(e.keyword)[1] == 'b';
      assert 'b' !in "unknown operator";
      MissingChar(e, p, 'b');
    } else {
      assert |Lower(e.keyword)| > |Lower(p)|;
    }
  }

  /** A label no keyword occurs in gets the empty corporation and state. */
  lemma LookupUnknownProvider()
    ensures TransportInfo("Unknown Operator") == ("", "")
  {
    forall j | 0 <= j < |TransportMapping| ensures !Matches(TransportMapping[j], "Unknown Operator") {
      UnknownMisses(j);
    }
    LookupNoMatch(TransportMapping, "Unknown Operator");
  }

  /** A text without the letter 'n' does not contain "non". */
  lemma NoNon(text: string)
    requires 'n' !in text
    ensures !Contains(text, "non")
  {
    if Contains(text, "non") {
      ContainsChars(text, "non", 'n');
    }
  }

  lemma SleeperText()
    ensures Lower("A/C Sleeper (2+1)") == "a/c sleeper (2+1)"
  {
  }

  lemma SleeperHasAc()
    ensures Contains("a/c sleeper (2+1)", "a/c")
  {
    assert "a/c sleeper (2+1)"[..3] == "a/c";
  }

  /** A keyword and no "non": an A/C bus. */
  lemma ClassifyAcSleeper()
    ensures ClassifyAcType("A/C Sleeper (2+1)") == AcBus
  {
    SleeperText();
    SleeperHasAc();
    NoNon("a/c sleeper (2+1)");
  }

  lemma SeaterText()
    ensures Lower("NON A/C Seater (2+2)") == "non a/c seater (2+2)"
  {
  }

  lemma SeaterHasNon()
    ensures Contains("non a/c seater (2+2)", "non")
  {
    assert "non a/c seater (2+2)"[..3] == "non";
  }

  /** "non" overrides the keyword. */
  lemma ClassifyNonAc()
    ensures ClassifyAcType("NON A/C Seater (2+2)") == NonAcBus
  {
    SeaterText();
    SeaterHasNon();
  }

  lemma PlainSleeperText()
    ensures Lower("Sleeper (2+1)") == "sleeper (2+1)"
  {
  }

  /** No keyword at all: not an A/C bus. */
  lemma ClassifyNoKeyword()
    ensures ClassifyAcType("Sleeper (2+1)") == NonAcBus
  {
    var text := "sleeper (2+1)";
    PlainSleeperText();
    assert 'a' !in text;
    forall k | k in ["a/c", "ac", "a c"] ensures !Contains(text, k) {
      if Contains(text, k) {
        ContainsChars(text, k, 'a');
      }
    }
  }

  lemma CoachText()
    ensures Lower("Seater Coach") == "seater coach"
  {
  }

  lemma CoachHasAc()
    ensures Contains("seater coach", "ac")
  {
    var text := "seater coach";
    assert text[9..11] == "ac";
    assert OccursAt(text, "ac", 9);
    ContainsIff(text, "ac");
  }

  /** The keywords are plain substrings: the "ac" inside "coach" makes a coach an A/C bus. */
  lemma ClassifyCoach()
    ensures ClassifyAcType("Seater Coach") == AcBus
  {
    CoachText();
    CoachHasAc();
    NoNon("seater coach");
  }

  /** A pattern whose first two characters never stand side by side in the text does not occur in it. */
  lemma NoPairNoMatch(text: string, pat: string)
    requires |pat| >= 2
    requires forall i :: 0 <= i < |text| - 1 ==> !(text[i] == pat[0] && text[i + 1] == pat[1])
    ensures !Contains(text, pat)
  {
    ContainsIff(text, pat);
  }

  lemma DottedText()
    ensures Lower("A.C. Seater") == "a.c. seater"
  {
  }

  lemma DottedNoSlash()
    ensures !Contains("a.c. seater", "a/c")
  {
    if Contains("a.c. seater", "a/c") {
      ContainsChars("a.c. seater", "a/c", '/');
    }
  }

  lemma DottedNoPair()
    ensures !Contains("a.c. seater", "ac") && !Contains("a.c. seater", "a c")
  {
    var text := "a.c. seater";
    assert forall i :: 0 <= i < |text| - 1 && text[i] == 'a' ==> text[i + 1] != 'c' && text[i + 1] != ' ';
    NoPairNoMatch(text, "ac");
    NoPairNoMatch(text, "a c");
  }

  /** "A.C." spelt with dots matches none of the keywords. */
  lemma ClassifyDottedAc()
    ensures ClassifyAcType("A.C. Seater") == NonAcBus
  {
    DottedText();
    DottedNoSlash();
    DottedNoPair();
  }
}
