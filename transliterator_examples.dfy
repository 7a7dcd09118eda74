/** Cases of the X.Text Transliterator proved of the model, chosen where its table order makes it
    differ from CyrillicTransliterator: є and э come before е, so "ye" and "e" read back as є and э. */
module TransliteratorExamples {
  import opened Strings
  import opened SubstitutionTable
  import opened Transliterator

  lemma LatinPrivetSpelled0()
    ensures Transcribe(LatinLetter, "привет") == "privet"
  {
    TranscribeCons(LatinLetter, 'п', "ривет", "привет");
    LatinPrivetSpelled1();
  }

  lemma LatinPrivetSpelled1()
    ensures Transcribe(LatinLetter, "ривет") == "rivet"
  {
    TranscribeCons(LatinLetter, 'р', "ивет", "ривет");
    LatinPrivetSpelled2();
  }

  lemma LatinPrivetSpelled2()
    ensures Transcribe(LatinLetter, "ивет") == "ivet"
  {
    TranscribeCons(LatinLetter, 'и', "вет", "ивет");
    LatinPrivetSpelled3();
  }

  lemma LatinPrivetSpelled3()
    ensures Transcribe(LatinLetter, "вет") == "vet"
  {
    TranscribeCons(LatinLetter, 'в', "ет", "вет");
    LatinPrivetSpelled4();
  }

  lemma LatinPrivetSpelled4()
    ensures Transcribe(LatinLetter, "ет") == "et"
  {
    TranscribeCons(LatinLetter, 'е', "т", "ет");
    LatinPrivetSpelled5();
  }

  lemma LatinPrivetSpelled5()
    ensures Transcribe(LatinLetter, "т") == "t"
  {
  }

  /** привет is spelled as by CyrillicTransliterator. */
  lemma ToLatinPrivet()
    ensures ToLatin("привет") == "privet"
  {
    ToLatinSpells("привет");
    LatinPrivetSpelled0();
  }

  lemma LatinYeSpelled0()
    ensures Transcribe(LatinLetter, "є") == "ye"
  {
  }

  /** є is spelled ye. */
  lemma ToLatinYe()
    ensures ToLatin("є") == "ye"
  {
    ToLatinSpells("є");
    LatinYeSpelled0();
  }

  lemma LatinESpelled0()
    ensures Transcribe(LatinLetter, "е") == "e"
  {
  }

  /** е is spelled e. */
  lemma ToLatinE()
    ensures ToLatin("е") == "e"
  {
    ToLatinSpells("е");
    LatinESpelled0();
  }

  lemma LatinKheSpelled0()
    ensures Transcribe(LatinLetter, "хэ") == "khe"
  {
    TranscribeCons(LatinLetter, 'х', "э", "хэ");
    LatinKheSpelled1();
  }

  lemma LatinKheSpelled1()
    ensures Transcribe(LatinLetter, "э") == "e"
  {
  }

  /** хэ is spelled letter by letter: the table has no entry for хэ. */
  lemma ToLatinKhe()
    ensures ToLatin("хэ") == "khe"
  {
    ToLatinSpells("хэ");
    LatinKheSpelled0();
  }

  lemma CyrillicPrivetSpelled0()
    ensures Transcribe(CyrillicLetter, "privet") == "привэт"
  {
    TranscribeCons(CyrillicLetter, 'p', "rivet", "privet");
    CyrillicPrivetSpelled1();
  }

  lemma CyrillicPrivetSpelled1()
    ensures Transcribe(CyrillicLetter, "rivet") == "ривэт"
  {
    TranscribeCons(CyrillicLetter, 'r', "ivet", "rivet");
    CyrillicPrivetSpelled2();
  }

  lemma CyrillicPrivetSpelled2()
    ensures Transcribe(CyrillicLetter, "ivet") == "ивэт"
  {
    TranscribeCons(CyrillicLetter, 'i', "vet", "ivet");
    CyrillicPrivetSpelled3();
  }

  lemma CyrillicPrivetSpelled3()
    ensures Transcribe(CyrillicLetter, "vet") == "вэт"
  {
    TranscribeCons(CyrillicLetter, 'v', "et", "vet");
    CyrillicPrivetSpelled4();
  }

  lemma CyrillicPrivetSpelled4()
    ensures Transcribe(CyrillicLetter, "et") == "эт"
  {
    TranscribeCons(CyrillicLetter, 'e', "t", "et");
    CyrillicPrivetSpelled5();
  }

  lemma CyrillicPrivetSpelled5()
    ensures Transcribe(CyrillicLetter, "t") == "т"
  {
  }

  lemma CyrillicPrivetRest()
    ensures NoLongValue(0, "privet")
  {
    NoLongValueWithin(0, "privet", {'p', 'r', 'i', 'v', 'e', 't'});
  }

  lemma CyrillicPrivetLate()
    ensures forall k :: 0 <= k < |"privet"| && FirstValue("privet"[k]).Some? ==> 0 <= FirstValue("privet"[k]).value
  {
  }

  lemma CyrillicPrivetFrom0()
    ensures ReplacePairs("privet", Inverted(Table())[0..]) == "привэт"
  {
    CyrillicPrivetRest();
    CyrillicPrivetLate();
    BackwardFrom(0, "privet");
    CyrillicPrivetSpelled0();
  }

  /** privet reads back as привэт: э ← e comes before е ← e. */
  lemma ToCyrillicPrivet()
    ensures ToCyrillic("privet") == "привэт"
  {
    assert Inverted(Table())[0..] == Inverted(Table());
    CyrillicPrivetFrom0();
  }

  lemma CyrillicYeIdle0()
    ensures WellFormed(Inverted(Table())) && forall i :: 0 <= i < 4 ==> Idle(Inverted(Table()), i, "ye")
  {
    TableShape();
  }

  lemma CyrillicYeFrom0()
    ensures ReplacePairs("ye", Inverted(Table())[0..]) == "є"
  {
    CyrillicYeIdle0();
    Skip(Inverted(Table()), 0, 4, "ye");
    CyrillicYeFrom4();
  }

  lemma CyrillicYePass4()
    ensures ReplaceAll("ye", "ye", "є", Ordinal) == "є"
  {
  }

  lemma CyrillicYeEntry4()
    ensures WellFormed(Inverted(Table())) && Inverted(Table())[4] == ("ye", "є")
  {
    TableShape();
  }

  lemma CyrillicYeFrom4()
    ensures ReplacePairs("ye", Inverted(Table())[4..]) == "є"
  {
    CyrillicYeEntry4();
    Step(Inverted(Table()), 4, "ye");
    CyrillicYePass4();
    CyrillicYeFrom5();
  }

  lemma CyrillicYeSpelled0()
    ensures Transcribe(CyrillicLetter, "є") == "є"
  {
  }

  lemma CyrillicYeRest()
    ensures NoLongValue(5, "є")
  {
    NoLongValueWithin(5, "є", {'є'});
  }

  lemma CyrillicYeLate()
    ensures forall k :: 0 <= k < |"є"| && FirstValue("є"[k]).Some? ==> 5 <= FirstValue("є"[k]).value
  {
  }

  lemma CyrillicYeFrom5()
    ensures ReplacePairs("є", Inverted(Table())[5..]) == "є"
  {
    CyrillicYeRest();
    CyrillicYeLate();
    BackwardFrom(5, "є");
    CyrillicYeSpelled0();
  }

  /** ye reads back as є, an entry that comes before е ← e. */
  lemma ToCyrillicYe()
    ensures ToCyrillic("ye") == "є"
  {
    assert Inverted(Table())[0..] == Inverted(Table());
    CyrillicYeFrom0();
  }

  lemma CyrillicTsarevnaIdle0()
    ensures WellFormed(Inverted(Table())) && forall i :: 0 <= i < 8 ==> Idle(Inverted(Table()), i, "Tsarevna")
  {
    TableShape();
  }

  lemma CyrillicTsarevnaFrom0()
    ensures ReplacePairs("Tsarevna", Inverted(Table())[0..]) == "Царэвна"
  {
    CyrillicTsarevnaIdle0();
    Skip(Inverted(Table()), 0, 8, "Tsarevna");
    CyrillicTsarevnaFrom8();
  }

  lemma CyrillicTsarevnaIdle8()
    ensures WellFormed(Inverted(Table())) && forall i :: 8 <= i < 9 ==> Idle(Inverted(Table()), i, "Tsarevna")
  {
    TableShape();
  }

  lemma CyrillicTsarevnaFrom8()
    ensures ReplacePairs("Tsarevna", Inverted(Table())[8..]) == "Царэвна"
  {
    CyrillicTsarevnaIdle8();
    Skip(Inverted(Table()), 8, 9, "Tsarevna");
    CyrillicTsarevnaFrom9();
  }

  lemma CyrillicTsarevnaPass9()
    ensures ReplaceAll("Tsarevna", "e", "э", Ordinal) == "Tsarэvna"
  {
    assert "Tsar" + "e" + "vna" == "Tsarevna" && "Tsar" + "э" + "vna" == "Tsarэvna";
    ReplaceOnly("Tsar", "e", "vna", "e", "э", Ordinal);
  }

  lemma CyrillicTsarevnaEntry9()
    ensures WellFormed(Inverted(Table())) && Inverted(Table())[9] == ("e", "э")
  {
    TableShape();
  }

  lemma CyrillicTsarevnaFrom9()
    ensures ReplacePairs("Tsarevna", Inverted(Table())[9..]) == "Царэвна"
  {
    CyrillicTsarevnaEntry9();
    Step(Inverted(Table()), 9, "Tsarevna");
    CyrillicTsarevnaPass9();
    CyrillicTsarevnaFrom10();
  }

  lemma CyrillicTsarevnaIdle10()
    ensures WellFormed(Inverted(Table())) && forall i :: 10 <= i < 16 ==> Idle(Inverted(Table()), i, "Tsarэvna")
  {
    TableShape();
  }

  lemma CyrillicTsarevnaFrom10()
    ensures ReplacePairs("Tsarэvna", Inverted(Table())[10..]) == "Царэвна"
  {
    CyrillicTsarevnaIdle10();
    Skip(Inverted(Table()), 10, 16, "Tsarэvna");
    CyrillicTsarevnaFrom16();
  }

  lemma CyrillicTsarevnaPass16()
    ensures ReplaceAll("Tsarэvna", "Ts", "Ц", Ordinal) == "Цarэvna"
  {
    assert "" + "Ts" + "arэvna" == "Tsarэvna" && "" + "Ц" + "arэvna" == "Цarэvna";
    ReplaceOnly("", "Ts", "arэvna", "Ts", "Ц", Ordinal);
  }

  lemma CyrillicTsarevnaEntry16()
    ensures WellFormed(Inverted(Table())) && Inverted(Table())[16] == ("Ts", "Ц")
  {
    TableShape();
  }

  lemma CyrillicTsarevnaFrom16()
    ensures ReplacePairs("Tsarэvna", Inverted(Table())[16..]) == "Царэвна"
  {
    CyrillicTsarevnaEntry16();
    Step(Inverted(Table()), 16, "Tsarэvna");
    CyrillicTsarevnaPass16();
    CyrillicTsarevnaFrom17();
  }

  lemma CyrillicTsarevnaSpelled0()
    ensures Transcribe(CyrillicLetter, "Цarэvna") == "Царэвна"
  {
    TranscribeCons(CyrillicLetter, 'Ц', "arэvna", "Цarэvna");
    CyrillicTsarevnaSpelled1();
  }

  lemma CyrillicTsarevnaSpelled1()
    ensures Transcribe(CyrillicLetter, "arэvna") == "арэвна"
  {
    TranscribeCons(CyrillicLetter, 'a', "rэvna", "arэvna");
    CyrillicTsarevnaSpelled2();
  }

  lemma CyrillicTsarevnaSpelled2()
    ensures Transcribe(CyrillicLetter, "rэvna") == "рэвна"
  {
    TranscribeCons(CyrillicLetter, 'r', "эvna", "rэvna");
    CyrillicTsarevnaSpelled3();
  }

  lemma CyrillicTsarevnaSpelled3()
    ensures Transcribe(CyrillicLetter, "эvna") == "эвна"
  {
    TranscribeCons(CyrillicLetter, 'э', "vna", "эvna");
    CyrillicTsarevnaSpelled4();
  }

  lemma CyrillicTsarevnaSpelled4()
    ensures Transcribe(CyrillicLetter, "vna") == "вна"
  {
    TranscribeCons(CyrillicLetter, 'v', "na", "vna");
    CyrillicTsarevnaSpelled5();
  }

  lemma CyrillicTsarevnaSpelled5()
    ensures Transcribe(CyrillicLetter, "na") == "на"
  {
    TranscribeCons(CyrillicLetter, 'n', "a", "na");
    CyrillicTsarevnaSpelled6();
  }

  lemma CyrillicTsarevnaSpelled6()
    ensures Transcribe(CyrillicLetter, "a") == "а"
  {
  }

  lemma CyrillicTsarevnaRest()
    ensures NoLongValue(17, "Цarэvna")
  {
    NoLongValueWithin(17, "Цarэvna", {'Ц', 'a', 'r', 'э', 'v', 'n'});
  }

  lemma CyrillicTsarevnaLate()
    ensures forall k :: 0 <= k < |"Цarэvna"| && FirstValue("Цarэvna"[k]).Some? ==> 17 <= FirstValue("Цarэvna"[k]).value
  {
  }

  lemma CyrillicTsarevnaFrom17()
    ensures ReplacePairs("Цarэvna", Inverted(Table())[17..]) == "Царэвна"
  {
    CyrillicTsarevnaRest();
    CyrillicTsarevnaLate();
    BackwardFrom(17, "Цarэvna");
    CyrillicTsarevnaSpelled0();
  }

  /** Tsarevna reads back with э. */
  lemma ToCyrillicTsarevna()
    ensures ToCyrillic("Tsarevna") == "Царэвна"
  {
    assert Inverted(Table())[0..] == Inverted(Table());
    CyrillicTsarevnaFrom0();
  }

  /** е does not survive the round trip: it comes back as э. */
  lemma EDoesNotRoundTrip()
    ensures ToCyrillic(ToLatin("е")) == "э"
  {
    ToLatinE();
    ToCyrillicE();
  }

  lemma ToCyrillicE()
    ensures ToCyrillic("e") == "э"
  {
    ToCyrillicSpells("e");
  }

  /** є survives the round trip. */
  lemma YeRoundTrips()
    ensures ToCyrillic(ToLatin("є")) == "є"
  {
    ToLatinYe();
    ToCyrillicYe();
  }
}
