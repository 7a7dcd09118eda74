/** The cases of CyrillicTransliteratorTests, each proved of the model: the word lists of the two
    theories, the empty text, and "hello world" in both directions; then a few cases that show
    how the table's order decides the result. */
module CyrillicTransliteratorTests {
  import opened Strings
  import opened SubstitutionTable
  import opened CyrillicTransliterator

  lemma LatinPrivetSpelled0()
    ensures Transcribe(LatinLetter, "привет") == "privet"
  {
    TranscribeCons(LatinLetter, 'п', "ривет", "привет");
    LatinPrivetSpelled1();
  }

  lemma LatinPrivetSpelled1()
    ensures Transcribe(LatinLetter, "ривет") == "rivet"
  {
    TranscribeCons(LatinLetter, 'р', "ивет", "ривет");
    LatinPrivetSpelled2();
  }

  lemma LatinPrivetSpelled2()
    ensures Transcribe(LatinLetter, "ивет") == "ivet"
  {
    TranscribeCons(LatinLetter, 'и', "вет", "ивет");
    LatinPrivetSpelled3();
  }

  lemma LatinPrivetSpelled3()
    ensures Transcribe(LatinLetter, "вет") == "vet"
  {
    TranscribeCons(LatinLetter, 'в', "ет", "вет");
    LatinPrivetSpelled4();
  }

  lemma LatinPrivetSpelled4()
    ensures Transcribe(LatinLetter, "ет") == "et"
  {
    TranscribeCons(LatinLetter, 'е', "т", "ет");
    LatinPrivetSpelled5();
  }

  lemma LatinPrivetSpelled5()
    ensures Transcribe(LatinLetter, "т") == "t"
  {
  }

  /** A test case of ToTransliteration. */
  lemma ToLatinPrivet()
    ensures ToLatin("привет") == "privet"
  {
    ToLatinSpells("привет");
    LatinPrivetSpelled0();
  }

  lemma LatinMirSpelled0()
    ensures Transcribe(LatinLetter, "мир") == "mir"
  {
    TranscribeCons(LatinLetter, 'м', "ир", "мир");
    LatinMirSpelled1();
  }

  lemma LatinMirSpelled1()
    ensures Transcribe(LatinLetter, "ир") == "ir"
  {
    TranscribeCons(LatinLetter, 'и', "р", "ир");
    LatinMirSpelled2();
  }

  lemma LatinMirSpelled2()
    ensures Transcribe(LatinLetter, "р") == "r"
  {
  }

  /** A test case of ToTransliteration. */
  lemma ToLatinMir()
    ensures ToLatin("мир") == "mir"
  {
    ToLatinSpells("мир");
    LatinMirSpelled0();
  }

  lemma LatinTestSpelled0()
    ensures Transcribe(LatinLetter, "тест") == "test"
  {
    TranscribeCons(LatinLetter, 'т', "ест", "тест");
    LatinTestSpelled1();
  }

  lemma LatinTestSpelled1()
    ensures Transcribe(LatinLetter, "ест") == "est"
  {
    TranscribeCons(LatinLetter, 'е', "ст", "ест");
    LatinTestSpelled2();
  }

  lemma LatinTestSpelled2()
    ensures Transcribe(LatinLetter, "ст") == "st"
  {
    TranscribeCons(LatinLetter, 'с', "т", "ст");
    LatinTestSpelled3();
  }

  lemma LatinTestSpelled3()
    ensures Transcribe(LatinLetter, "т") == "t"
  {
  }

  /** A test case of ToTransliteration. */
  lemma ToLatinTest()
    ensures ToLatin("тест") == "test"
  {
    ToLatinSpells("тест");
    LatinTestSpelled0();
  }

  lemma LatinShchyokaSpelled0()
    ensures Transcribe(LatinLetter, "Щёка") == "Shchyoka"
  {
    TranscribeCons(LatinLetter, 'Щ', "ёка", "Щёка");
    LatinShchyokaSpelled1();
  }

  lemma LatinShchyokaSpelled1()
    ensures Transcribe(LatinLetter, "ёка") == "yoka"
  {
    TranscribeCons(LatinLetter, 'ё', "ка", "ёка");
    LatinShchyokaSpelled2();
  }

  lemma LatinShchyokaSpelled2()
    ensures Transcribe(LatinLetter, "ка") == "ka"
  {
    TranscribeCons(LatinLetter, 'к', "а", "ка");
    LatinShchyokaSpelled3();
  }

  lemma LatinShchyokaSpelled3()
    ensures Transcribe(LatinLetter, "а") == "a"
  {
  }

  /** A test case of ToTransliteration. */
  lemma ToLatinShchyoka()
    ensures ToLatin("Щёка") == "Shchyoka"
  {
    ToLatinSpells("Щёка");
    LatinShchyokaSpelled0();
  }

  lemma LatinTsarevnaSpelled0()
    ensures Transcribe(LatinLetter, "Царевна") == "Tsarevna"
  {
    TranscribeCons(LatinLetter, 'Ц', "аревна", "Царевна");
    LatinTsarevnaSpelled1();
  }

  lemma LatinTsarevnaSpelled1()
    ensures Transcribe(LatinLetter, "аревна") == "arevna"
  {
    TranscribeCons(LatinLetter, 'а', "ревна", "аревна");
    LatinTsarevnaSpelled2();
  }

  lemma LatinTsarevnaSpelled2()
    ensures Transcribe(LatinLetter, "ревна") == "revna"
  {
    TranscribeCons(LatinLetter, 'р', "евна", "ревна");
    LatinTsarevnaSpelled3();
  }

  lemma LatinTsarevnaSpelled3()
    ensures Transcribe(LatinLetter, "евна") == "evna"
  {
    TranscribeCons(LatinLetter, 'е', "вна", "евна");
    LatinTsarevnaSpelled4();
  }

  lemma LatinTsarevnaSpelled4()
    ensures Transcribe(LatinLetter, "вна") == "vna"
  {
    TranscribeCons(LatinLetter, 'в', "на", "вна");
    LatinTsarevnaSpelled5();
  }

  lemma LatinTsarevnaSpelled5()
    ensures Transcribe(LatinLetter, "на") == "na"
  {
    TranscribeCons(LatinLetter, 'н', "а", "на");
    LatinTsarevnaSpelled6();
  }

  lemma LatinTsarevnaSpelled6()
    ensures Transcribe(LatinLetter, "а") == "a"
  {
  }

  /** A test case of ToTransliteration. */
  lemma ToLatinTsarevna()
    ensures ToLatin("Царевна") == "Tsarevna"
  {
    ToLatinSpells("Царевна");
    LatinTsarevnaSpelled0();
  }

  lemma LatinKheSpelled0()
    ensures Transcribe(LatinLetter, "хэ") == "khe"
  {
    TranscribeCons(LatinLetter, 'х', "э", "хэ");
    LatinKheSpelled1();
  }

  lemma LatinKheSpelled1()
    ensures Transcribe(LatinLetter, "э") == "e"
  {
  }

  /** The entry хэ → he never applies: х → kh comes first. */
  lemma ToLatinKhe()
    ensures ToLatin("хэ") == "khe"
  {
    ToLatinSpells("хэ");
    LatinKheSpelled0();
  }

  lemma LatinYevaSpelled0()
    ensures Transcribe(LatinLetter, "Єва") == "Єva"
  {
    TranscribeCons(LatinLetter, 'Є', "ва", "Єва");
    LatinYevaSpelled1();
  }

  lemma LatinYevaSpelled1()
    ensures Transcribe(LatinLetter, "ва") == "va"
  {
    TranscribeCons(LatinLetter, 'в', "а", "ва");
    LatinYevaSpelled2();
  }

  lemma LatinYevaSpelled2()
    ensures Transcribe(LatinLetter, "а") == "a"
  {
  }

  /** Є keys no entry (only є does) and is kept. */
  lemma ToLatinYeva()
    ensures ToLatin("Єва") == "Єva"
  {
    ToLatinSpells("Єва");
    LatinYevaSpelled0();
  }

  lemma LatinYeSpelled0()
    ensures Transcribe(LatinLetter, "є") == "ye"
  {
  }

  /** є is spelled ye. */
  lemma ToLatinYe()
    ensures ToLatin("є") == "ye"
  {
    ToLatinSpells("є");
    LatinYeSpelled0();
  }

  lemma CyrillicPrivetSpelled0()
    ensures Transcribe(CyrillicLetter, "privet") == "привет"
  {
    TranscribeCons(CyrillicLetter, 'p', "rivet", "privet");
    CyrillicPrivetSpelled1();
  }

  lemma CyrillicPrivetSpelled1()
    ensures Transcribe(CyrillicLetter, "rivet") == "ривет"
  {
    TranscribeCons(CyrillicLetter, 'r', "ivet", "rivet");
    CyrillicPrivetSpelled2();
  }

  lemma CyrillicPrivetSpelled2()
    ensures Transcribe(CyrillicLetter, "ivet") == "ивет"
  {
    TranscribeCons(CyrillicLetter, 'i', "vet", "ivet");
    CyrillicPrivetSpelled3();
  }

  lemma CyrillicPrivetSpelled3()
    ensures Transcribe(CyrillicLetter, "vet") == "вет"
  {
    TranscribeCons(CyrillicLetter, 'v', "et", "vet");
    CyrillicPrivetSpelled4();
  }

  lemma CyrillicPrivetSpelled4()
    ensures Transcribe(CyrillicLetter, "et") == "ет"
  {
    TranscribeCons(CyrillicLetter, 'e', "t", "et");
    CyrillicPrivetSpelled5();
  }

  lemma CyrillicPrivetSpelled5()
    ensures Transcribe(CyrillicLetter, "t") == "т"
  {
  }

  lemma CyrillicPrivetRest()
    ensures NoLongValue(0, "privet")
  {
    NoLongValueWithin(0, "privet", {'p', 'r', 'i', 'v', 'e', 't'});
  }

  lemma CyrillicPrivetLate()
    ensures forall k :: 0 <= k < |"privet"| && FirstValue("privet"[k]).Some? ==> 0 <= FirstValue("privet"[k]).value
  {
  }

  lemma CyrillicPrivetFrom0()
    ensures ReplacePairs("privet", Inverted(Table())[0..]) == "привет"
  {
    CyrillicPrivetRest();
    CyrillicPrivetLate();
    BackwardFrom(0, "privet");
    CyrillicPrivetSpelled0();
  }

  /** A test case of FromTransliteration. */
  lemma ToCyrillicPrivet()
    ensures ToCyrillic("privet") == "привет"
  {
    assert Inverted(Table())[0..] == Inverted(Table());
    CyrillicPrivetFrom0();
  }

  lemma CyrillicMirSpelled0()
    ensures Transcribe(CyrillicLetter, "mir") == "мир"
  {
    TranscribeCons(CyrillicLetter, 'm', "ir", "mir");
    CyrillicMirSpelled1();
  }

  lemma CyrillicMirSpelled1()
    ensures Transcribe(CyrillicLetter, "ir") == "ир"
  {
    TranscribeCons(CyrillicLetter, 'i', "r", "ir");
    CyrillicMirSpelled2();
  }

  lemma CyrillicMirSpelled2()
    ensures Transcribe(CyrillicLetter, "r") == "р"
  {
  }

  lemma CyrillicMirRest()
    ensures NoLongValue(0, "mir")
  {
    NoLongValueWithin(0, "mir", {'m', 'i', 'r'});
  }

  lemma CyrillicMirLate()
    ensures forall k :: 0 <= k < |"mir"| && FirstValue("mir"[k]).Some? ==> 0 <= FirstValue("mir"[k]).value
  {
  }

  lemma CyrillicMirFrom0()
    ensures ReplacePairs("mir", Inverted(Table())[0..]) == "мир"
  {
    CyrillicMirRest();
    CyrillicMirLate();
    BackwardFrom(0, "mir");
    CyrillicMirSpelled0();
  }

  /** A test case of FromTransliteration. */
  lemma ToCyrillicMir()
    ensures ToCyrillic("mir") == "мир"
  {
    assert Inverted(Table())[0..] == Inverted(Table());
    CyrillicMirFrom0();
  }

  lemma CyrillicTestIdle0()
    ensures WellFormed(Inverted(Table())) && forall i :: 0 <= i < 8 ==> Idle(Inverted(Table()), i, "test")
  {
    TableShape();
  }

  lemma CyrillicTestFrom0()
    ensures ReplacePairs("test", Inverted(Table())[0..]) == "тест"
  {
    CyrillicTestIdle0();
    Skip(Inverted(Table()), 0, 8, "test");
    CyrillicTestFrom8();
  }

  lemma CyrillicTestIdle8()
    ensures WellFormed(Inverted(Table())) && forall i :: 8 <= i < 12 ==> Idle(Inverted(Table()), i, "test")
  {
    TableShape();
  }

  lemma CyrillicTestFrom8()
    ensures ReplacePairs("test", Inverted(Table())[8..]) == "тест"
  {
    CyrillicTestIdle8();
    Skip(Inverted(Table()), 8, 12, "test");
    CyrillicTestFrom12();
  }

  lemma CyrillicTestPass12()
    ensures ReplaceAll("test", "ts", "ц", Ordinal) == "test"
  {
  }

  lemma CyrillicTestEntry12()
    ensures WellFormed(Inverted(Table())) && Inverted(Table())[12] == ("ts", "ц")
  {
    TableShape();
  }

  lemma CyrillicTestFrom12()
    ensures ReplacePairs("test", Inverted(Table())[12..]) == "тест"
  {
    CyrillicTestEntry12();
    Step(Inverted(Table()), 12, "test");
    CyrillicTestPass12();
    CyrillicTestFrom13();
  }

  lemma CyrillicTestIdle13()
    ensures WellFormed(Inverted(Table())) && forall i :: 13 <= i < 21 ==> Idle(Inverted(Table()), i, "test")
  {
    TableShape();
  }

  lemma CyrillicTestFrom13()
    ensures ReplacePairs("test", Inverted(Table())[13..]) == "тест"
  {
    CyrillicTestIdle13();
    Skip(Inverted(Table()), 13, 21, "test");
    CyrillicTestFrom21();
  }

  lemma CyrillicTestIdle21()
    ensures WellFormed(Inverted(Table())) && forall i :: 21 <= i < 24 ==> Idle(Inverted(Table()), i, "test")
  {
    TableShape();
  }

  lemma CyrillicTestFrom21()
    ensures ReplacePairs("test", Inverted(Table())[21..]) == "тест"
  {
    CyrillicTestIdle21();
    Skip(Inverted(Table()), 21, 24, "test");
    CyrillicTestFrom24();
  }

  lemma CyrillicTestSpelled0()
    ensures Transcribe(CyrillicLetter, "test") == "тест"
  {
    TranscribeCons(CyrillicLetter, 't', "est", "test");
    CyrillicTestSpelled1();
  }

  lemma CyrillicTestSpelled1()
    ensures Transcribe(CyrillicLetter, "est") == "ест"
  {
    TranscribeCons(CyrillicLetter, 'e', "st", "est");
    CyrillicTestSpelled2();
  }

  lemma CyrillicTestSpelled2()
    ensures Transcribe(CyrillicLetter, "st") == "ст"
  {
    TranscribeCons(CyrillicLetter, 's', "t", "st");
    CyrillicTestSpelled3();
  }

  lemma CyrillicTestSpelled3()
    ensures Transcribe(CyrillicLetter, "t") == "т"
  {
  }

  lemma CyrillicTestRest()
    ensures NoLongValue(24, "test")
  {
    NoLongValueWithin(24, "test", {'t', 'e', 's'});
  }

  lemma CyrillicTestLate()
    ensures forall k :: 0 <= k < |"test"| && FirstValue("test"[k]).Some? ==> 24 <= FirstValue("test"[k]).value
  {
  }

  lemma CyrillicTestFrom24()
    ensures ReplacePairs("test", Inverted(Table())[24..]) == "тест"
  {
    CyrillicTestRest();
    CyrillicTestLate();
    BackwardFrom(24, "test");
    CyrillicTestSpelled0();
  }

  /** A test case of FromTransliteration: ts → ц is tried but finds nothing. */
  lemma ToCyrillicTest()
    ensures ToCyrillic("test") == "тест"
  {
    assert Inverted(Table())[0..] == Inverted(Table());
    CyrillicTestFrom0();
  }

  lemma CyrillicShchyokaIdle0()
    ensures WellFormed(Inverted(Table())) && forall i :: 0 <= i < 1 ==> Idle(Inverted(Table()), i, "Shchyoка")
  {
    TableShape();
  }

  lemma CyrillicShchyokaFrom0()
    ensures ReplacePairs("Shchyoка", Inverted(Table())[0..]) == "Щёка"
  {
    CyrillicShchyokaIdle0();
    Skip(Inverted(Table()), 0, 1, "Shchyoка");
    CyrillicShchyokaFrom1();
  }

  lemma CyrillicShchyokaPass1()
    ensures ReplaceAll("Shchyoка", "Shch", "Щ", Ordinal) == "Щyoка"
  {
  }

  lemma CyrillicShchyokaEntry1()
    ensures WellFormed(Inverted(Table())) && Inverted(Table())[1] == ("Shch", "Щ")
  {
    TableShape();
  }

  lemma CyrillicShchyokaFrom1()
    ensures ReplacePairs("Shchyoка", Inverted(Table())[1..]) == "Щёка"
  {
    CyrillicShchyokaEntry1();
    Step(Inverted(Table()), 1, "Shchyoка");
    CyrillicShchyokaPass1();
    CyrillicShchyokaFrom2();
  }

  lemma CyrillicShchyokaPass2()
    ensures ReplaceAll("Щyoка", "yo", "ё", Ordinal) == "Щёка"
  {
  }

  lemma CyrillicShchyokaEntry2()
    ensures WellFormed(Inverted(Table())) && Inverted(Table())[2] == ("yo", "ё")
  {
    TableShape();
  }

  lemma CyrillicShchyokaFrom2()
    ensures ReplacePairs("Щyoка", Inverted(Table())[2..]) == "Щёка"
  {
    CyrillicShchyokaEntry2();
    Step(Inverted(Table()), 2, "Щyoка");
    CyrillicShchyokaPass2();
    CyrillicShchyokaFrom3();
  }

  lemma CyrillicShchyokaSpelled0()
    ensures Transcribe(CyrillicLetter, "Щёка") == "Щёка"
  {
    TranscribeCons(CyrillicLetter, 'Щ', "ёка", "Щёка");
    CyrillicShchyokaSpelled1();
  }

  lemma CyrillicShchyokaSpelled1()
    ensures Transcribe(CyrillicLetter, "ёка") == "ёка"
  {
    TranscribeCons(CyrillicLetter, 'ё', "ка", "ёка");
    CyrillicShchyokaSpelled2();
  }

  lemma CyrillicShchyokaSpelled2()
    ensures Transcribe(CyrillicLetter, "ка") == "ка"
  {
    TranscribeCons(CyrillicLetter, 'к', "а", "ка");
    CyrillicShchyokaSpelled3();
  }

  lemma CyrillicShchyokaSpelled3()
    ensures Transcribe(CyrillicLetter, "а") == "а"
  {
  }

  lemma CyrillicShchyokaRest()
    ensures NoLongValue(3, "Щёка")
  {
    NoLongValueWithin(3, "Щёка", {'Щ', 'ё', 'к', 'а'});
  }

  lemma CyrillicShchyokaLate()
    ensures forall k :: 0 <= k < |"Щёка"| && FirstValue("Щёка"[k]).Some? ==> 3 <= FirstValue("Щёка"[k]).value
  {
  }

  lemma CyrillicShchyokaFrom3()
    ensures ReplacePairs("Щёка", Inverted(Table())[3..]) == "Щёка"
  {
    CyrillicShchyokaRest();
    CyrillicShchyokaLate();
    BackwardFrom(3, "Щёка");
    CyrillicShchyokaSpelled0();
  }

  /** A test case of FromTransliteration: the input ends in the Cyrillic letters к and а. */
  lemma ToCyrillicShchyoka()
    ensures ToCyrillic("Shchyoка") == "Щёка"
  {
    assert Inverted(Table())[0..] == Inverted(Table());
    CyrillicShchyokaFrom0();
  }

  lemma CyrillicTsarevnaIdle0()
    ensures WellFormed(Inverted(Table())) && forall i :: 0 <= i < 8 ==> Idle(Inverted(Table()), i, "Tsarevna")
  {
    TableShape();
  }

  lemma CyrillicTsarevnaFrom0()
    ensures ReplacePairs("Tsarevna", Inverted(Table())[0..]) == "Царевна"
  {
    CyrillicTsarevnaIdle0();
    Skip(Inverted(Table()), 0, 8, "Tsarevna");
    CyrillicTsarevnaFrom8();
  }

  lemma CyrillicTsarevnaIdle8()
    ensures WellFormed(Inverted(Table())) && forall i :: 8 <= i < 13 ==> Idle(Inverted(Table()), i, "Tsarevna")
  {
    TableShape();
  }

  lemma CyrillicTsarevnaFrom8()
    ensures ReplacePairs("Tsarevna", Inverted(Table())[8..]) == "Царевна"
  {
    CyrillicTsarevnaIdle8();
    Skip(Inverted(Table()), 8, 13, "Tsarevna");
    CyrillicTsarevnaFrom13();
  }

  lemma CyrillicTsarevnaPass13()
    ensures ReplaceAll("Tsarevna", "Ts", "Ц", Ordinal) == "Цarevna"
  {
    assert "" + "Ts" + "arevna" == "Tsarevna" && "" + "Ц" + "arevna" == "Цarevna";
    ReplaceOnly("", "Ts", "arevna", "Ts", "Ц", Ordinal);
  }

  lemma CyrillicTsarevnaEntry13()
    ensures WellFormed(Inverted(Table())) && Inverted(Table())[13] == ("Ts", "Ц")
  {
    TableShape();
  }

  lemma CyrillicTsarevnaFrom13()
    ensures ReplacePairs("Tsarevna", Inverted(Table())[13..]) == "Царевна"
  {
    CyrillicTsarevnaEntry13();
    Step(Inverted(Table()), 13, "Tsarevna");
    CyrillicTsarevnaPass13();
    CyrillicTsarevnaFrom14();
  }

  lemma CyrillicTsarevnaSpelled0()
    ensures Transcribe(CyrillicLetter, "Цarevna") == "Царевна"
  {
    TranscribeCons(CyrillicLetter, 'Ц', "arevna", "Цarevna");
    CyrillicTsarevnaSpelled1();
  }

  lemma CyrillicTsarevnaSpelled1()
    ensures Transcribe(CyrillicLetter, "arevna") == "аревна"
  {
    TranscribeCons(CyrillicLetter, 'a', "revna", "arevna");
    CyrillicTsarevnaSpelled2();
  }

  lemma CyrillicTsarevnaSpelled2()
    ensures Transcribe(CyrillicLetter, "revna") == "ревна"
  {
    TranscribeCons(CyrillicLetter, 'r', "evna", "revna");
    CyrillicTsarevnaSpelled3();
  }

  lemma CyrillicTsarevnaSpelled3()
    ensures Transcribe(CyrillicLetter, "evna") == "евна"
  {
    TranscribeCons(CyrillicLetter, 'e', "vna", "evna");
    CyrillicTsarevnaSpelled4();
  }

  lemma CyrillicTsarevnaSpelled4()
    ensures Transcribe(CyrillicLetter, "vna") == "вна"
  {
    TranscribeCons(CyrillicLetter, 'v', "na", "vna");
    CyrillicTsarevnaSpelled5();
  }

  lemma CyrillicTsarevnaSpelled5()
    ensures Transcribe(CyrillicLetter, "na") == "на"
  {
    TranscribeCons(CyrillicLetter, 'n', "a", "na");
    CyrillicTsarevnaSpelled6();
  }

  lemma CyrillicTsarevnaSpelled6()
    ensures Transcribe(CyrillicLetter, "a") == "а"
  {
  }

  lemma CyrillicTsarevnaRest()
    ensures NoLongValue(14, "Цarevna")
  {
    NoLongValueWithin(14, "Цarevna", {'Ц', 'a', 'r', 'e', 'v', 'n'});
  }

  lemma CyrillicTsarevnaLate()
    ensures forall k :: 0 <= k < |"Цarevna"| && FirstValue("Цarevna"[k]).Some? ==> 14 <= FirstValue("Цarevna"[k]).value
  {
  }

  lemma CyrillicTsarevnaFrom14()
    ensures ReplacePairs("Цarevna", Inverted(Table())[14..]) == "Царевна"
  {
    CyrillicTsarevnaRest();
    CyrillicTsarevnaLate();
    BackwardFrom(14, "Цarevna");
    CyrillicTsarevnaSpelled0();
  }

  /** A test case of FromTransliteration. */
  lemma ToCyrillicTsarevna()
    ensures ToCyrillic("Tsarevna") == "Царевна"
  {
    assert Inverted(Table())[0..] == Inverted(Table());
    CyrillicTsarevnaFrom0();
  }

  lemma CyrillicHelloIdle0()
    ensures WellFormed(Inverted(Table())) && forall i :: 0 <= i < 8 ==> Idle(Inverted(Table()), i, "hello")
  {
    TableShape();
  }

  lemma CyrillicHelloFrom0()
    ensures ReplacePairs("hello", Inverted(Table())[0..]) == "хэлло"
  {
    CyrillicHelloIdle0();
    Skip(Inverted(Table()), 0, 8, "hello");
    CyrillicHelloFrom8();
  }

  lemma CyrillicHelloIdle8()
    ensures WellFormed(Inverted(Table())) && forall i :: 8 <= i < 16 ==> Idle(Inverted(Table()), i, "hello")
  {
    TableShape();
  }

  lemma CyrillicHelloFrom8()
    ensures ReplacePairs("hello", Inverted(Table())[8..]) == "хэлло"
  {
    CyrillicHelloIdle8();
    Skip(Inverted(Table()), 8, 16, "hello");
    CyrillicHelloFrom16();
  }

  lemma CyrillicHelloIdle16()
    ensures WellFormed(Inverted(Table())) && forall i :: 16 <= i < 22 ==> Idle(Inverted(Table()), i, "hello")
  {
    TableShape();
  }

  lemma CyrillicHelloFrom16()
    ensures ReplacePairs("hello", Inverted(Table())[16..]) == "хэлло"
  {
    CyrillicHelloIdle16();
    Skip(Inverted(Table()), 16, 22, "hello");
    CyrillicHelloFrom22();
  }

  lemma CyrillicHelloPass22()
    ensures ReplaceAll("hello", "he", "хэ", Ordinal) == "хэllo"
  {
  }

  lemma CyrillicHelloEntry22()
    ensures WellFormed(Inverted(Table())) && Inverted(Table())[22] == ("he", "хэ")
  {
    TableShape();
  }

  lemma CyrillicHelloFrom22()
    ensures ReplacePairs("hello", Inverted(Table())[22..]) == "хэлло"
  {
    CyrillicHelloEntry22();
    Step(Inverted(Table()), 22, "hello");
    CyrillicHelloPass22();
    CyrillicHelloFrom23();
  }

  lemma CyrillicHelloSpelled0()
    ensures Transcribe(CyrillicLetter, "хэllo") == "хэлло"
  {
    TranscribeCons(CyrillicLetter, 'х', "эllo", "хэllo");
    CyrillicHelloSpelled1();
  }

  lemma CyrillicHelloSpelled1()
    ensures Transcribe(CyrillicLetter, "эllo") == "элло"
  {
    TranscribeCons(CyrillicLetter, 'э', "llo", "эllo");
    CyrillicHelloSpelled2();
  }

  lemma CyrillicHelloSpelled2()
    ensures Transcribe(CyrillicLetter, "llo") == "лло"
  {
    TranscribeCons(CyrillicLetter, 'l', "lo", "llo");
    CyrillicHelloSpelled3();
  }

  lemma CyrillicHelloSpelled3()
    ensures Transcribe(CyrillicLetter, "lo") == "ло"
  {
    TranscribeCons(CyrillicLetter, 'l', "o", "lo");
    CyrillicHelloSpelled4();
  }

  lemma CyrillicHelloSpelled4()
    ensures Transcribe(CyrillicLetter, "o") == "о"
  {
  }

  lemma CyrillicHelloRest()
    ensures NoLongValue(23, "хэllo")
  {
    NoLongValueWithin(23, "хэllo", {'х', 'э', 'l', 'o'});
  }

  lemma CyrillicHelloLate()
    ensures forall k :: 0 <= k < |"хэllo"| && FirstValue("хэllo"[k]).Some? ==> 23 <= FirstValue("хэllo"[k]).value
  {
  }

  lemma CyrillicHelloFrom23()
    ensures ReplacePairs("хэllo", Inverted(Table())[23..]) == "хэлло"
  {
    CyrillicHelloRest();
    CyrillicHelloLate();
    BackwardFrom(23, "хэllo");
    CyrillicHelloSpelled0();
  }

  /** he is read as хэ before the single letters. */
  lemma ToCyrillicHello()
    ensures ToCyrillic("hello") == "хэлло"
  {
    assert Inverted(Table())[0..] == Inverted(Table());
    CyrillicHelloFrom0();
  }

  lemma CyrillicWorldIdle0()
    ensures WellFormed(Inverted(Table())) && forall i :: 0 <= i < 8 ==> Idle(Inverted(Table()), i, "world")
  {
    TableShape();
  }

  lemma CyrillicWorldFrom0()
    ensures ReplacePairs("world", Inverted(Table())[0..]) == "ворлд"
  {
    CyrillicWorldIdle0();
    Skip(Inverted(Table()), 0, 8, "world");
    CyrillicWorldFrom8();
  }

  lemma CyrillicWorldIdle8()
    ensures WellFormed(Inverted(Table())) && forall i :: 8 <= i < 16 ==> Idle(Inverted(Table()), i, "world")
  {
    TableShape();
  }

  lemma CyrillicWorldFrom8()
    ensures ReplacePairs("world", Inverted(Table())[8..]) == "ворлд"
  {
    CyrillicWorldIdle8();
    Skip(Inverted(Table()), 8, 16, "world");
    CyrillicWorldFrom16();
  }

  lemma CyrillicWorldIdle16()
    ensures WellFormed(Inverted(Table())) && forall i :: 16 <= i < 24 ==> Idle(Inverted(Table()), i, "world")
  {
    TableShape();
  }

  lemma CyrillicWorldFrom16()
    ensures ReplacePairs("world", Inverted(Table())[16..]) == "ворлд"
  {
    CyrillicWorldIdle16();
    Skip(Inverted(Table()), 16, 24, "world");
    CyrillicWorldFrom24();
  }

  lemma CyrillicWorldIdle24()
    ensures WellFormed(Inverted(Table())) && forall i :: 24 <= i < 30 ==> Idle(Inverted(Table()), i, "world")
  {
    TableShape();
  }

  lemma CyrillicWorldFrom24()
    ensures ReplacePairs("world", Inverted(Table())[24..]) == "ворлд"
  {
    CyrillicWorldIdle24();
    Skip(Inverted(Table()), 24, 30, "world");
    CyrillicWorldFrom30();
  }

  lemma CyrillicWorldPass30()
    ensures ReplaceAll("world", "wo", "во", Ordinal) == "воrld"
  {
  }

  lemma CyrillicWorldEntry30()
    ensures WellFormed(Inverted(Table())) && Inverted(Table())[30] == ("wo", "во")
  {
    TableShape();
  }

  lemma CyrillicWorldFrom30()
    ensures ReplacePairs("world", Inverted(Table())[30..]) == "ворлд"
  {
    CyrillicWorldEntry30();
    Step(Inverted(Table()), 30, "world");
    CyrillicWorldPass30();
    CyrillicWorldFrom31();
  }

  lemma CyrillicWorldSpelled0()
    ensures Transcribe(CyrillicLetter, "воrld") == "ворлд"
  {
    TranscribeCons(CyrillicLetter, 'в', "оrld", "воrld");
    CyrillicWorldSpelled1();
  }

  lemma CyrillicWorldSpelled1()
    ensures Transcribe(CyrillicLetter, "оrld") == "орлд"
  {
    TranscribeCons(CyrillicLetter, 'о', "rld", "оrld");
    CyrillicWorldSpelled2();
  }

  lemma CyrillicWorldSpelled2()
    ensures Transcribe(CyrillicLetter, "rld") == "рлд"
  {
    TranscribeCons(CyrillicLetter, 'r', "ld", "rld");
    CyrillicWorldSpelled3();
  }

  lemma CyrillicWorldSpelled3()
    ensures Transcribe(CyrillicLetter, "ld") == "лд"
  {
    TranscribeCons(CyrillicLetter, 'l', "d", "ld");
    CyrillicWorldSpelled4();
  }

  lemma CyrillicWorldSpelled4()
    ensures Transcribe(CyrillicLetter, "d") == "д"
  {
  }

  lemma CyrillicWorldRest()
    ensures NoLongValue(31, "воrld")
  {
    NoLongValueWithin(31, "воrld", {'в', 'о', 'r', 'l', 'd'});
  }

  lemma CyrillicWorldLate()
    ensures forall k :: 0 <= k < |"воrld"| && FirstValue("воrld"[k]).Some? ==> 31 <= FirstValue("воrld"[k]).value
  {
  }

  lemma CyrillicWorldFrom31()
    ensures ReplacePairs("воrld", Inverted(Table())[31..]) == "ворлд"
  {
    CyrillicWorldRest();
    CyrillicWorldLate();
    BackwardFrom(31, "воrld");
    CyrillicWorldSpelled0();
  }

  /** wo is read as во before the single letters. */
  lemma ToCyrillicWorld()
    ensures ToCyrillic("world") == "ворлд"
  {
    assert Inverted(Table())[0..] == Inverted(Table());
    CyrillicWorldFrom0();
  }

  lemma CyrillicYeIdle0()
    ensures WellFormed(Inverted(Table())) && forall i :: 0 <= i < 8 ==> Idle(Inverted(Table()), i, "ye")
  {
    TableShape();
  }

  lemma CyrillicYeFrom0()
    ensures ReplacePairs("ye", Inverted(Table())[0..]) == "йе"
  {
    CyrillicYeIdle0();
    Skip(Inverted(Table()), 0, 8, "ye");
    CyrillicYeFrom8();
  }

  lemma CyrillicYeIdle8()
    ensures WellFormed(Inverted(Table())) && forall i :: 8 <= i < 16 ==> Idle(Inverted(Table()), i, "ye")
  {
    TableShape();
  }

  lemma CyrillicYeFrom8()
    ensures ReplacePairs("ye", Inverted(Table())[8..]) == "йе"
  {
    CyrillicYeIdle8();
    Skip(Inverted(Table()), 8, 16, "ye");
    CyrillicYeFrom16();
  }

  lemma CyrillicYeIdle16()
    ensures WellFormed(Inverted(Table())) && forall i :: 16 <= i < 24 ==> Idle(Inverted(Table()), i, "ye")
  {
    TableShape();
  }

  lemma CyrillicYeFrom16()
    ensures ReplacePairs("ye", Inverted(Table())[16..]) == "йе"
  {
    CyrillicYeIdle16();
    Skip(Inverted(Table()), 16, 24, "ye");
    CyrillicYeFrom24();
  }

  lemma CyrillicYeIdle24()
    ensures WellFormed(Inverted(Table())) && forall i :: 24 <= i < 32 ==> Idle(Inverted(Table()), i, "ye")
  {
    TableShape();
  }

  lemma CyrillicYeFrom24()
    ensures ReplacePairs("ye", Inverted(Table())[24..]) == "йе"
  {
    CyrillicYeIdle24();
    Skip(Inverted(Table()), 24, 32, "ye");
    CyrillicYeFrom32();
  }

  lemma CyrillicYeIdle32()
    ensures WellFormed(Inverted(Table())) && forall i :: 32 <= i < 38 ==> Idle(Inverted(Table()), i, "ye")
  {
    TableShape();
  }

  lemma CyrillicYeFrom32()
    ensures ReplacePairs("ye", Inverted(Table())[32..]) == "йе"
  {
    CyrillicYeIdle32();
    Skip(Inverted(Table()), 32, 38, "ye");
    CyrillicYeFrom38();
  }

  lemma CyrillicYePass38()
    ensures ReplaceAll("ye", "e", "е", Ordinal) == "yе"
  {
  }

  lemma CyrillicYeEntry38()
    ensures WellFormed(Inverted(Table())) && Inverted(Table())[38] == ("e", "е")
  {
    TableShape();
  }

  lemma CyrillicYeFrom38()
    ensures ReplacePairs("ye", Inverted(Table())[38..]) == "йе"
  {
    CyrillicYeEntry38();
    Step(Inverted(Table()), 38, "ye");
    CyrillicYePass38();
    CyrillicYeFrom39();
  }

  lemma CyrillicYeSpelled0()
    ensures Transcribe(CyrillicLetter, "yе") == "йе"
  {
    TranscribeCons(CyrillicLetter, 'y', "е", "yе");
    CyrillicYeSpelled1();
  }

  lemma CyrillicYeSpelled1()
    ensures Transcribe(CyrillicLetter, "е") == "е"
  {
  }

  lemma CyrillicYeRest()
    ensures NoLongValue(39, "yе")
  {
    NoLongValueWithin(39, "yе", {'y', 'е'});
  }

  lemma CyrillicYeLate()
    ensures forall k :: 0 <= k < |"yе"| && FirstValue("yе"[k]).Some? ==> 39 <= FirstValue("yе"[k]).value
  {
  }

  lemma CyrillicYeFrom39()
    ensures ReplacePairs("yе", Inverted(Table())[39..]) == "йе"
  {
    CyrillicYeRest();
    CyrillicYeLate();
    BackwardFrom(39, "yе");
    CyrillicYeSpelled0();
  }

  /** ye reads back as й and е: the entry е ← e comes before є ← ye. */
  lemma ToCyrillicYe()
    ensures ToCyrillic("ye") == "йе"
  {
    assert Inverted(Table())[0..] == Inverted(Table());
    CyrillicYeFrom0();
  }

  /** The empty-text test case of ToTransliteration. */
  lemma ToLatinEmpty()
    ensures ToLatin("") == ""
  {
    ToLatinKeepsForeign("");
  }

  /** The empty-text test case of FromTransliteration. */
  lemma ToCyrillicEmpty()
    ensures ToCyrillic("") == ""
  {
    ToCyrillicKeepsForeign("");
  }

  /** The test case in which ToTransliteration leaves "hello world" alone. */
  lemma ToLatinHelloWorld()
    ensures ToLatin("hello world") == "hello world"
  {
    ToLatinKeepsForeign("hello world");
  }

  /** The test case that expects FromTransliteration to turn "hello world" into хэлло ворлд:
      the space splits it into two words. */
  lemma ToCyrillicHelloWorld()
    ensures ToCyrillic("hello world") == "хэлло ворлд"
  {
    HelloWorldWords();
    ToCyrillicHello();
    ToCyrillicWorld();
    HelloWorldJoined();
  }

  lemma HelloWorldWords()
    ensures ToCyrillic("hello world") == ToCyrillic("hello") + [' '] + ToCyrillic("world")
  {
    ToCyrillicAround("hello", ' ', "world");
    HelloWorldSplit();
  }

  lemma HelloWorldSplit()
    ensures "hello" + [' '] + "world" == "hello world"
  {
  }

  lemma HelloWorldJoined()
    ensures "хэлло" + [' '] + "ворлд" == "хэлло ворлд"
  {
  }

  /** є does not survive the round trip: it comes back as йе. */
  lemma YeDoesNotRoundTrip()
    ensures ToCyrillic(ToLatin("є")) == "йе"
  {
    ToLatinYe();
    ToCyrillicYe();
  }

  lemma MirLetters()
    ensures forall k :: 0 <= k < |"мир"| ==> Transcribe(CyrillicLetter, LatinLetter("мир"[k])) == ["мир"[k]]
  {
  }

  lemma MirRest()
    ensures NoLongValue(0, "mir")
  {
    NoLongValueWithin(0, "mir", {'m', 'i', 'r'});
  }

  /** мир survives the trip to Latin and back by the round-trip theorem. */
  lemma MirRoundTrip()
    ensures ToCyrillic(ToLatin("мир")) == "мир"
  {
    ToLatinMir();
    MirLetters();
    MirRest();
    RoundTrip("мир");
  }
}
