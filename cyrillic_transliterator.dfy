/** CyrillicTransliterator of X.Extensions.Text: Cyrillic to Latin and back through one table of
    77 (key, value) pairs, walked in the order its static constructor adds them (the order a
    Dictionary that is only ever added to enumerates in), one ordinal String.Replace per entry. */
module CyrillicTransliterator {
  import opened Strings
  import opened SubstitutionTable
  import opened Wrappers

  const Count: nat := 77

  /** Entry `i` of the table, in the order the static constructor adds them. */
  function Entry(i: nat): (e: (string, string))
    requires i < Count
    ensures 0 < |e.0| && 0 < |e.1|

  {
    if i < 20 then Block0(i) else if i < 40 then Block1(i - 20) else if i < 60 then Block2(i - 40) else Block3(i - 60)
  }

  /** Entries 0 to 19. */
  function Block0(i: nat): (e: (string, string))
    requires i < 20
    ensures 0 < |e.0| && 0 < |e.1|

  {
    match i
    case 0 => ("щ", "shch")
    case 1 => ("Щ", "Shch")
    case 2 => ("ё", "yo")
    case 3 => ("Ё", "Yo")
    case 4 => ("ж", "zh")
    case 5 => ("Ж", "Zh")
    case 6 => ("ї", "yi")
    case 7 => ("Ї", "Yi")
    case 8 => ("ч", "ch")
    case 9 => ("Ч", "Ch")
    case 10 => ("ш", "sh")
    case 11 => ("Ш", "Sh")
    case 12 => ("ц", "ts")
    case 13 => ("Ц", "Ts")
    case 14 => ("ю", "yu")
    case 15 => ("Ю", "Yu")
    case 16 => ("Я", "Ya")
    case 17 => ("я", "ya")
    case 18 => ("ъ", "__")
    case _ => ("Ъ", "__")
  }

  /** Entries 20 to 39. */
  function Block1(i: nat): (e: (string, string))
    requires i < 20
    ensures 0 < |e.0| && 0 < |e.1|

  {
    match i
    case 0 => ("х", "kh")
    case 1 => ("Х", "Kh")
    case 2 => ("хэ", "he")
    case 3 => ("Хэ", "He")
    case 4 => ("ь", "_")
    case 5 => ("Ь", "_")
    case 6 => ("б", "b")
    case 7 => ("Б", "B")
    case 8 => ("в", "v")
    case 9 => ("В", "V")
    case 10 => ("во", "wo")
    case 11 => ("Во", "Wo")
    case 12 => ("г", "g")
    case 13 => ("Г", "G")
    case 14 => ("ґ", "g")
    case 15 => ("Ґ", "G")
    case 16 => ("д", "d")
    case 17 => ("Д", "D")
    case 18 => ("е", "e")
    case _ => ("Е", "E")
  }

  /** Entries 40 to 59. */
  function Block2(i: nat): (e: (string, string))
    requires i < 20
    ensures 0 < |e.0| && 0 < |e.1|

  {
    match i
    case 0 => ("є", "ye")
    case 1 => ("з", "z")
    case 2 => ("З", "Z")
    case 3 => ("и", "i")
    case 4 => ("И", "I")
    case 5 => ("й", "y")
    case 6 => ("Й", "Y")
    case 7 => ("к", "k")
    case 8 => ("К", "K")
    case 9 => ("л", "l")
    case 10 => ("Л", "L")
    case 11 => ("м", "m")
    case 12 => ("М", "M")
    case 13 => ("н", "n")
    case 14 => ("Н", "N")
    case 15 => ("п", "p")
    case 16 => ("П", "P")
    case 17 => ("р", "r")
    case 18 => ("Р", "R")
    case _ => ("с", "s")
  }

  /** Entries 60 to 76. */
  function Block3(i: nat): (e: (string, string))
    requires i < 17
    ensures 0 < |e.0| && 0 < |e.1|

  {
    match i
    case 0 => ("С", "S")
    case 1 => ("т", "t")
    case 2 => ("Т", "T")
    case 3 => ("о", "o")
    case 4 => ("О", "O")
    case 5 => ("а", "a")
    case 6 => ("А", "A")
    case 7 => ("ф", "f")
    case 8 => ("Ф", "F")
    case 9 => ("і", "i")
    case 10 => ("І", "I")
    case 11 => ("У", "U")
    case 12 => ("у", "u")
    case 13 => ("ы", "y")
    case 14 => ("Ы", "Y")
    case 15 => ("э", "e")
    case _ => ("Э", "E")
  }

  /** The whole table, entry by entry. */
  function Table(): (t: seq<(string, string)>)
    ensures |t| == Count && forall i :: 0 <= i < Count ==> t[i] == Entry(i)
  {
    seq(Count, i requires 0 <= i < Count => Entry(i))
  }

  /** The first entry whose key is exactly the letter `c`. */
  function FirstKey(c: char): Option<nat> {
    if c < 'Г' then FirstKey0(c)
    else if c < 'Й' then FirstKey1(c)
    else if c < 'П' then FirstKey2(c)
    else if c < 'Х' then FirstKey3(c)
    else if c < 'Ы' then FirstKey4(c)
    else if c < 'б' then FirstKey5(c)
    else if c < 'з' then FirstKey6(c)
    else if c < 'н' then FirstKey7(c)
    else if c < 'у' then FirstKey8(c)
    else if c < 'щ' then FirstKey9(c)
    else if c < 'я' then FirstKey10(c)
    else if c < 'ґ' then FirstKey11(c)
    else FirstKey12(c)
  }

  function FirstKey0(c: char): Option<nat> {
    match c
    case 'Ё' => Some(3)
    case 'І' => Some(70)
    case 'Ї' => Some(7)
    case 'А' => Some(66)
    case 'Б' => Some(27)
    case 'В' => Some(29)
    case _ => None
  }

  function FirstKey1(c: char): Option<nat> {
    match c
    case 'Г' => Some(33)
    case 'Д' => Some(37)
    case 'Е' => Some(39)
    case 'Ж' => Some(5)
    case 'З' => Some(42)
    case 'И' => Some(44)
    case _ => None
  }

  function FirstKey2(c: char): Option<nat> {
    match c
    case 'Й' => Some(46)
    case 'К' => Some(48)
    case 'Л' => Some(50)
    case 'М' => Some(52)
    case 'Н' => Some(54)
    case 'О' => Some(64)
    case _ => None
  }

  function FirstKey3(c: char): Option<nat> {
    match c
    case 'П' => Some(56)
    case 'Р' => Some(58)
    case 'С' => Some(60)
    case 'Т' => Some(62)
    case 'У' => Some(71)
    case 'Ф' => Some(68)
    case _ => None
  }

  function FirstKey4(c: char): Option<nat> {
    match c
    case 'Х' => Some(21)
    case 'Ц' => Some(13)
    case 'Ч' => Some(9)
    case 'Ш' => Some(11)
    case 'Щ' => Some(1)
    case 'Ъ' => Some(19)
    case _ => None
  }

  function FirstKey5(c: char): Option<nat> {
    match c
    case 'Ы' => Some(74)
    case 'Ь' => Some(25)
    case 'Э' => Some(76)
    case 'Ю' => Some(15)
    case 'Я' => Some(16)
    case 'а' => Some(65)
    case _ => None
  }

  function FirstKey6(c: char): Option<nat> {
    match c
    case 'б' => Some(26)
    case 'в' => Some(28)
    case 'г' => Some(32)
    case 'д' => Some(36)
    case 'е' => Some(38)
    case 'ж' => Some(4)
    case _ => None
  }

  function FirstKey7(c: char): Option<nat> {
    match c
    case 'з' => Some(41)
    case 'и' => Some(43)
    case 'й' => Some(45)
    case 'к' => Some(47)
    case 'л' => Some(49)
    case 'м' => Some(51)
    case _ => None
  }

  function FirstKey8(c: char): Option<nat> {
    match c
    case 'н' => Some(53)
    case 'о' => Some(63)
    case 'п' => Some(55)
    case 'р' => Some(57)
    case 'с' => Some(59)
    case 'т' => Some(61)
    case _ => None
  }

  function FirstKey9(c: char): Option<nat> {
    match c
    case 'у' => Some(72)
    case 'ф' => Some(67)
    case 'х' => Some(20)
    case 'ц' => Some(12)
    case 'ч' => Some(8)
    case 'ш' => Some(10)
    case _ => None
  }

  function FirstKey10(c: char): Option<nat> {
    match c
    case 'щ' => Some(0)
    case 'ъ' => Some(18)
    case 'ы' => Some(73)
    case 'ь' => Some(24)
    case 'э' => Some(75)
    case 'ю' => Some(14)
    case _ => None
  }

  function FirstKey11(c: char): Option<nat> {
    match c
    case 'я' => Some(17)
    case 'ё' => Some(2)
    case 'є' => Some(40)
    case 'і' => Some(69)
    case 'ї' => Some(6)
    case 'Ґ' => Some(35)
    case _ => None
  }

  function FirstKey12(c: char): Option<nat> {
    match c
    case 'ґ' => Some(34)
    case _ => None
  }

  /** The first entry whose value is exactly the letter `c`. */
  function FirstValue(c: char): Option<nat> {
    if c < 'I' then FirstValue0(c)
    else if c < 'P' then FirstValue1(c)
    else if c < 'Y' then FirstValue2(c)
    else if c < 'e' then FirstValue3(c)
    else if c < 'm' then FirstValue4(c)
    else if c < 't' then FirstValue5(c)
    else FirstValue6(c)
  }

  function FirstValue0(c: char): Option<nat> {
    match c
    case 'A' => Some(66)
    case 'B' => Some(27)
    case 'D' => Some(37)
    case 'E' => Some(39)
    case 'F' => Some(68)
    case 'G' => Some(33)
    case _ => None
  }

  function FirstValue1(c: char): Option<nat> {
    match c
    case 'I' => Some(44)
    case 'K' => Some(48)
    case 'L' => Some(50)
    case 'M' => Some(52)
    case 'N' => Some(54)
    case 'O' => Some(64)
    case _ => None
  }

  function FirstValue2(c: char): Option<nat> {
    match c
    case 'P' => Some(56)
    case 'R' => Some(58)
    case 'S' => Some(60)
    case 'T' => Some(62)
    case 'U' => Some(71)
    case 'V' => Some(29)
    case _ => None
  }

  function FirstValue3(c: char): Option<nat> {
    match c
    case 'Y' => Some(46)
    case 'Z' => Some(42)
    case '_' => Some(24)
    case 'a' => Some(65)
    case 'b' => Some(26)
    case 'd' => Some(36)
    case _ => None
  }

  function FirstValue4(c: char): Option<nat> {
    match c
    case 'e' => Some(38)
    case 'f' => Some(67)
    case 'g' => Some(32)
    case 'i' => Some(43)
    case 'k' => Some(47)
    case 'l' => Some(49)
    case _ => None
  }

  function FirstValue5(c: char): Option<nat> {
    match c
    case 'm' => Some(51)
    case 'n' => Some(53)
    case 'o' => Some(63)
    case 'p' => Some(55)
    case 'r' => Some(57)
    case 's' => Some(59)
    case _ => None
  }

  function FirstValue6(c: char): Option<nat> {
    match c
    case 't' => Some(61)
    case 'u' => Some(72)
    case 'v' => Some(28)
    case 'y' => Some(45)
    case 'z' => Some(41)
    case _ => None
  }

  /** How the forward direction spells the letter `c`. */
  function LatinLetter(c: char): string {
    if c < 'Г' then LatinLetter0(c)
    else if c < 'Й' then LatinLetter1(c)
    else if c < 'П' then LatinLetter2(c)
    else if c < 'Х' then LatinLetter3(c)
    else if c < 'Ы' then LatinLetter4(c)
    else if c < 'б' then LatinLetter5(c)
    else if c < 'з' then LatinLetter6(c)
    else if c < 'н' then LatinLetter7(c)
    else if c < 'у' then LatinLetter8(c)
    else if c < 'щ' then LatinLetter9(c)
    else if c < 'я' then LatinLetter10(c)
    else if c < 'ґ' then LatinLetter11(c)
    else LatinLetter12(c)
  }

  function LatinLetter0(c: char): string {
    match c
    case 'Ё' => "Yo"
    case 'І' => "I"
    case 'Ї' => "Yi"
    case 'А' => "A"
    case 'Б' => "B"
    case 'В' => "V"
    case _ => [c]
  }

  function LatinLetter1(c: char): string {
    match c
    case 'Г' => "G"
    case 'Д' => "D"
    case 'Е' => "E"
    case 'Ж' => "Zh"
    case 'З' => "Z"
    case 'И' => "I"
    case _ => [c]
  }

  function LatinLetter2(c: char): string {
    match c
    case 'Й' => "Y"
    case 'К' => "K"
    case 'Л' => "L"
    case 'М' => "M"
    case 'Н' => "N"
    case 'О' => "O"
    case _ => [c]
  }

  function LatinLetter3(c: char): string {
    match c
    case 'П' => "P"
    case 'Р' => "R"
    case 'С' => "S"
    case 'Т' => "T"
    case 'У' => "U"
    case 'Ф' => "F"
    case _ => [c]
  }

  function LatinLetter4(c: char): string {
    match c
    case 'Х' => "Kh"
    case 'Ц' => "Ts"
    case 'Ч' => "Ch"
    case 'Ш' => "Sh"
    case 'Щ' => "Shch"
    case 'Ъ' => "__"
    case _ => [c]
  }

  function LatinLetter5(c: char): string {
    match c
    case 'Ы' => "Y"
    case 'Ь' => "_"
    case 'Э' => "E"
    case 'Ю' => "Yu"
    case 'Я' => "Ya"
    case 'а' => "a"
    case _ => [c]
  }

  function LatinLetter6(c: char): string {
    match c
    case 'б' => "b"
    case 'в' => "v"
    case 'г' => "g"
    case 'д' => "d"
    case 'е' => "e"
    case 'ж' => "zh"
    case _ => [c]
  }

  function LatinLetter7(c: char): string {
    match c
    case 'з' => "z"
    case 'и' => "i"
    case 'й' => "y"
    case 'к' => "k"
    case 'л' => "l"
    case 'м' => "m"
    case _ => [c]
  }

  function LatinLetter8(c: char): string {
    match c
    case 'н' => "n"
    case 'о' => "o"
    case 'п' => "p"
    case 'р' => "r"
    case 'с' => "s"
    case 'т' => "t"
    case _ => [c]
  }

  function LatinLetter9(c: char): string {
    match c
    case 'у' => "u"
    case 'ф' => "f"
    case 'х' => "kh"
    case 'ц' => "ts"
    case 'ч' => "ch"
    case 'ш' => "sh"
    case _ => [c]
  }

  function LatinLetter10(c: char): string {
    match c
    case 'щ' => "shch"
    case 'ъ' => "__"
    case 'ы' => "y"
    case 'ь' => "_"
    case 'э' => "e"
    case 'ю' => "yu"
    case _ => [c]
  }

  function LatinLetter11(c: char): string {
    match c
    case 'я' => "ya"
    case 'ё' => "yo"
    case 'є' => "ye"
    case 'і' => "i"
    case 'ї' => "yi"
    case 'Ґ' => "G"
    case _ => [c]
  }

  function LatinLetter12(c: char): string {
    match c
    case 'ґ' => "g"
    case _ => [c]
  }

  lemma LatinLetterAgrees0(c: char)
    requires c < 'Г'
    ensures Piece(Table(), FirstKey, 0, c) == LatinLetter(c)
  {
  }

  lemma LatinLetterAgrees1(c: char)
    requires 'Г' <= c && c < 'Й'
    ensures Piece(Table(), FirstKey, 0, c) == LatinLetter(c)
  {
  }

  lemma LatinLetterAgrees2(c: char)
    requires 'Й' <= c && c < 'П'
    ensures Piece(Table(), FirstKey, 0, c) == LatinLetter(c)
  {
  }

  lemma LatinLetterAgrees3(c: char)
    requires 'П' <= c && c < 'Х'
    ensures Piece(Table(), FirstKey, 0, c) == LatinLetter(c)
  {
  }

  lemma LatinLetterAgrees4(c: char)
    requires 'Х' <= c && c < 'Ы'
    ensures Piece(Table(), FirstKey, 0, c) == LatinLetter(c)
  {
  }

  lemma LatinLetterAgrees5(c: char)
    requires 'Ы' <= c && c < 'б'
    ensures Piece(Table(), FirstKey, 0, c) == LatinLetter(c)
  {
  }

  lemma LatinLetterAgrees6(c: char)
    requires 'б' <= c && c < 'з'
    ensures Piece(Table(), FirstKey, 0, c) == LatinLetter(c)
  {
  }

  lemma LatinLetterAgrees7(c: char)
    requires 'з' <= c && c < 'н'
    ensures Piece(Table(), FirstKey, 0, c) == LatinLetter(c)
  {
  }

  lemma LatinLetterAgrees8(c: char)
    requires 'н' <= c && c < 'у'
    ensures Piece(Table(), FirstKey, 0, c) == LatinLetter(c)
  {
  }

  lemma LatinLetterAgrees9(c: char)
    requires 'у' <= c && c < 'щ'
    ensures Piece(Table(), FirstKey, 0, c) == LatinLetter(c)
  {
  }

  lemma LatinLetterAgrees10(c: char)
    requires 'щ' <= c && c < 'я'
    ensures Piece(Table(), FirstKey, 0, c) == LatinLetter(c)
  {
  }

  lemma LatinLetterAgrees11(c: char)
    requires 'я' <= c && c < 'ґ'
    ensures Piece(Table(), FirstKey, 0, c) == LatinLetter(c)
  {
  }

  lemma LatinLetterAgrees12(c: char)
    requires 'ґ' <= c
    ensures Piece(Table(), FirstKey, 0, c) == LatinLetter(c)
  {
  }

  /** How the backward direction spells the letter `c` where no longer value can occur. */
  function CyrillicLetter(c: char): string {
    if c < 'I' then CyrillicLetter0(c)
    else if c < 'P' then CyrillicLetter1(c)
    else if c < 'Y' then CyrillicLetter2(c)
    else if c < 'e' then CyrillicLetter3(c)
    else if c < 'm' then CyrillicLetter4(c)
    else if c < 't' then CyrillicLetter5(c)
    else CyrillicLetter6(c)
  }

  function CyrillicLetter0(c: char): string {
    match c
    case 'A' => "А"
    case 'B' => "Б"
    case 'D' => "Д"
    case 'E' => "Е"
    case 'F' => "Ф"
    case 'G' => "Г"
    case _ => [c]
  }

  function CyrillicLetter1(c: char): string {
    match c
    case 'I' => "И"
    case 'K' => "К"
    case 'L' => "Л"
    case 'M' => "М"
    case 'N' => "Н"
    case 'O' => "О"
    case _ => [c]
  }

  function CyrillicLetter2(c: char): string {
    match c
    case 'P' => "П"
    case 'R' => "Р"
    case 'S' => "С"
    case 'T' => "Т"
    case 'U' => "У"
    case 'V' => "В"
    case _ => [c]
  }

  function CyrillicLetter3(c: char): string {
    match c
    case 'Y' => "Й"
    case 'Z' => "З"
    case '_' => "ь"
    case 'a' => "а"
    case 'b' => "б"
    case 'd' => "д"
    case _ => [c]
  }

  function CyrillicLetter4(c: char): string {
    match c
    case 'e' => "е"
    case 'f' => "ф"
    case 'g' => "г"
    case 'i' => "и"
    case 'k' => "к"
    case 'l' => "л"
    case _ => [c]
  }

  function CyrillicLetter5(c: char): string {
    match c
    case 'm' => "м"
    case 'n' => "н"
    case 'o' => "о"
    case 'p' => "п"
    case 'r' => "р"
    case 's' => "с"
    case _ => [c]
  }

  function CyrillicLetter6(c: char): string {
    match c
    case 't' => "т"
    case 'u' => "у"
    case 'v' => "в"
    case 'y' => "й"
    case 'z' => "з"
    case _ => [c]
  }

  lemma CyrillicLetterAgrees0(c: char)
    requires c < 'I'
    ensures Piece(Inverted(Table()), FirstValue, 0, c) == CyrillicLetter(c)
  {
  }

  lemma CyrillicLetterAgrees1(c: char)
    requires 'I' <= c && c < 'P'
    ensures Piece(Inverted(Table()), FirstValue, 0, c) == CyrillicLetter(c)
  {
  }

  lemma CyrillicLetterAgrees2(c: char)
    requires 'P' <= c && c < 'Y'
    ensures Piece(Inverted(Table()), FirstValue, 0, c) == CyrillicLetter(c)
  {
  }

  lemma CyrillicLetterAgrees3(c: char)
    requires 'Y' <= c && c < 'e'
    ensures Piece(Inverted(Table()), FirstValue, 0, c) == CyrillicLetter(c)
  {
  }

  lemma CyrillicLetterAgrees4(c: char)
    requires 'e' <= c && c < 'm'
    ensures Piece(Inverted(Table()), FirstValue, 0, c) == CyrillicLetter(c)
  {
  }

  lemma CyrillicLetterAgrees5(c: char)
    requires 'm' <= c && c < 't'
    ensures Piece(Inverted(Table()), FirstValue, 0, c) == CyrillicLetter(c)
  {
  }

  lemma CyrillicLetterAgrees6(c: char)
    requires 't' <= c
    ensures Piece(Inverted(Table()), FirstValue, 0, c) == CyrillicLetter(c)
  {
  }

  /** The first and last letters of every value longer than one letter from entry `n` on
      (coarsely: of the whole table before entry 24, from which on the set is smaller). */
  function LongValueEnds(n: nat): set<(char, char)> {
    if n < 24 then
      {('s', 'h'), ('S', 'h'), ('y', 'o'), ('Y', 'o'), ('z', 'h'), ('Z', 'h'), ('y', 'i'), ('Y', 'i'), ('c', 'h'), ('C', 'h'), ('t', 's'), ('T', 's'), ('y', 'u'), ('Y', 'u'), ('Y', 'a'), ('y', 'a'), ('_', '_'), ('k', 'h'), ('K', 'h'), ('h', 'e'), ('H', 'e'), ('w', 'o'), ('W', 'o'), ('y', 'e')}
    else
      {('w', 'o'), ('W', 'o'), ('y', 'e')}
  }

  lemma LongEnds0(i: nat)
    requires i < 20
    ensures var v := Table()[i].1;
            |v| > 1 ==> (v[0], v[|v| - 1]) in LongValueEnds(0)
  {
  }

  lemma LongEnds1(i: nat)
    requires 20 <= i < 40
    ensures var v := Table()[i].1;
            |v| > 1 ==> (v[0], v[|v| - 1]) in LongValueEnds(0) && (24 <= i ==> (v[0], v[|v| - 1]) in LongValueEnds(24))
  {
  }

  lemma LongEnds2(i: nat)
    requires 40 <= i < 60
    ensures var v := Table()[i].1;
            |v| > 1 ==> (v[0], v[|v| - 1]) in LongValueEnds(0) && (v[0], v[|v| - 1]) in LongValueEnds(24)
  {
  }

  lemma LongEnds3(i: nat)
    requires 60 <= i < 77
    ensures var v := Table()[i].1;
            |v| > 1 ==> (v[0], v[|v| - 1]) in LongValueEnds(0) && (v[0], v[|v| - 1]) in LongValueEnds(24)
  {
  }

  /** Entry `i` spells its key in Cyrillic letters and its value in Latin ones. */
  predicate Scripts(i: nat)
    requires i < Count
  {
    var t := Table();
    |t[i].0| > 0 && |t[i].1| > 0
    && (forall k :: 0 <= k < |t[i].0| ==> IsCyrillic(t[i].0[k]))
    && (forall k :: 0 <= k < |t[i].1| ==> IsLatin(t[i].1[k]))
  }

  lemma KeysFound0(s: string, i: nat)
    requires i < 20
    ensures IndexedAt(Table(), FirstKey, 0, s, i) && InertAt(Table(), FirstKey, 0, s, i)
  {
  }

  lemma ScriptsHold0(i: nat)
    requires i < 20
    ensures Scripts(i)
  {
  }

  lemma ValuesFound0(s: string, i: nat)
    requires i < 20
    ensures IndexedAt(Inverted(Table()), FirstValue, 0, s, i)
  {
  }

  lemma KeysFound1(s: string, i: nat)
    requires 20 <= i < 40
    ensures IndexedAt(Table(), FirstKey, 0, s, i) && InertAt(Table(), FirstKey, 0, s, i)
  {
  }

  lemma ScriptsHold1(i: nat)
    requires 20 <= i < 40
    ensures Scripts(i)
  {
  }

  lemma ValuesFound1(s: string, i: nat)
    requires 20 <= i < 40
    ensures IndexedAt(Inverted(Table()), FirstValue, 0, s, i)
  {
  }

  lemma KeysFound2(s: string, i: nat)
    requires 40 <= i < 60
    ensures IndexedAt(Table(), FirstKey, 0, s, i) && InertAt(Table(), FirstKey, 0, s, i)
  {
  }

  lemma ScriptsHold2(i: nat)
    requires 40 <= i < 60
    ensures Scripts(i)
  {
  }

  lemma ValuesFound2(s: string, i: nat)
    requires 40 <= i < 60
    ensures IndexedAt(Inverted(Table()), FirstValue, 0, s, i)
  {
  }

  lemma KeysFound3(s: string, i: nat)
    requires 60 <= i < 77
    ensures IndexedAt(Table(), FirstKey, 0, s, i) && InertAt(Table(), FirstKey, 0, s, i)
  {
  }

  lemma ScriptsHold3(i: nat)
    requires 60 <= i < 77
    ensures Scripts(i)
  {
  }

  lemma ValuesFound3(s: string, i: nat)
    requires 60 <= i < 77
    ensures IndexedAt(Inverted(Table()), FirstValue, 0, s, i)
  {
  }

  lemma EveryEntryScripts()
    ensures forall j :: 0 <= j < Count ==> Scripts(j)
  {
    forall j | 0 <= j < Count ensures Scripts(j) {
      if j < 20 { ScriptsHold0(j); } else if j < 40 { ScriptsHold1(j); } else if j < 60 { ScriptsHold2(j); } else { ScriptsHold3(j); }
    }
  }

  lemma KeysCyrillic()
    ensures forall j, k :: 0 <= j < |Table()| && 0 <= k < |Table()[j].0| ==> IsCyrillic(Table()[j].0[k])
  {
    EveryEntryScripts();
    forall j, k | 0 <= j < |Table()| && 0 <= k < |Table()[j].0| ensures IsCyrillic(Table()[j].0[k]) {
      assert Scripts(j);
    }
  }

  lemma ValuesLatin()
    ensures forall j, k :: 0 <= j < |Table()| && 0 <= k < |Table()[j].1| ==> IsLatin(Table()[j].1[k])
  {
    EveryEntryScripts();
    forall j, k | 0 <= j < |Table()| && 0 <= k < |Table()[j].1| ensures IsLatin(Table()[j].1[k]) {
      assert Scripts(j);
    }
  }

  lemma NonEmpty()
    ensures WellFormed(Table())
  {
    EveryEntryScripts();
  }

  /** Keys are non-empty words of Cyrillic letters and values non-empty words of Latin ones, so
      both directions are legal folds and each reads one alphabet and writes the other. */
  lemma TableShape()
    ensures WellFormed(Table()) && WellFormed(Inverted(Table()))
    ensures Separated(Table(), 0, IsCyrillic) && Separated(Inverted(Table()), 0, IsLatin)
  {
    NonEmpty();
    KeysCyrillic();
    ValuesLatin();
    Bilingual(Table(), IsCyrillic, IsLatin);
  }

  lemma KeysIndexed(s: string)
    ensures Indexed(Table(), FirstKey, 0, s) && Inert(Table(), FirstKey, 0, s)
  {
    forall i | 0 <= i < Count
      ensures IndexedAt(Table(), FirstKey, 0, s, i) && InertAt(Table(), FirstKey, 0, s, i)
    {
      if i < 20 { KeysFound0(s, i); } else if i < 40 { KeysFound1(s, i); } else if i < 60 { KeysFound2(s, i); } else { KeysFound3(s, i); }
    }
  }

  lemma ValuesIndexed(s: string)
    ensures Indexed(Inverted(Table()), FirstValue, 0, s)
  {
    forall i | 0 <= i < Count ensures IndexedAt(Inverted(Table()), FirstValue, 0, s, i) {
      if i < 20 { ValuesFound0(s, i); } else if i < 40 { ValuesFound1(s, i); } else if i < 60 { ValuesFound2(s, i); } else { ValuesFound3(s, i); }
    }
  }

  /** What ToTransliteration computes: each key replaced by its value, one entry after the other. */
  function ToLatin(text: string): string {
    TableShape();
    Forward(Table(), text)
  }

  /** What FromTransliteration computes: each value replaced by its key, one entry after the other. */
  function ToCyrillic(text: string): string {
    TableShape();
    Backward(Table(), text)
  }

  /** ToTransliteration: one ordinal Replace(key, value) per entry, in table order. */
  method ToTransliteration(text: string) returns (r: string)
    ensures r == ToLatin(text)
  {
    TableShape();
    var table := Table();
    r := text;
    assert table[0..] == table;
    for i := 0 to |table|
      invariant ReplacePairs(r, table[i..]) == ReplacePairs(text, table)
    {
      Step(table, i, r);
      r := ReplaceAll(r, table[i].0, table[i].1, Ordinal);
    }
    assert table[|table|..] == [];
  }

  /** FromTransliteration: one ordinal Replace(value, key) per entry, in table order. */
  method FromTransliteration(text: string) returns (r: string)
    ensures r == ToCyrillic(text)
  {
    TableShape();
    var table := Inverted(Table());
    r := text;
    assert table[0..] == table;
    for i := 0 to |table|
      invariant ReplacePairs(r, table[i..]) == ReplacePairs(text, table)
    {
      Step(table, i, r);
      r := ReplaceAll(r, table[i].0, table[i].1, Ordinal);
    }
    assert table[|table|..] == [];
  }

  /** Cyrillic to Latin is a letter-by-letter substitution: each letter that keys an entry becomes
      the value of the first such entry, every other character stays. */
  lemma {:induction false} ToLatinLetterwise(text: string)
    ensures ToLatin(text) == Letterwise(Table(), FirstKey, 0, text)
  {
    TableShape();
    KeysIndexed(text);
    FoldIsLetterwise(Table(), FirstKey, IsCyrillic, 0, text);
    assert Table()[0..] == Table();
  }

  lemma LatinLetters()
    ensures forall c :: Piece(Table(), FirstKey, 0, c) == LatinLetter(c)
  {
    forall c ensures Piece(Table(), FirstKey, 0, c) == LatinLetter(c) {
      if c < 'Г' { LatinLetterAgrees0(c); } else if c < 'Й' { LatinLetterAgrees1(c); } else if c < 'П' { LatinLetterAgrees2(c); } else if c < 'Х' { LatinLetterAgrees3(c); } else if c < 'Ы' { LatinLetterAgrees4(c); } else if c < 'б' { LatinLetterAgrees5(c); } else if c < 'з' { LatinLetterAgrees6(c); } else if c < 'н' { LatinLetterAgrees7(c); } else if c < 'у' { LatinLetterAgrees8(c); } else if c < 'щ' { LatinLetterAgrees9(c); } else if c < 'я' { LatinLetterAgrees10(c); } else if c < 'ґ' { LatinLetterAgrees11(c); } else { LatinLetterAgrees12(c); }
    }
  }

  /** ToTransliteration spells any text letter by letter with `LatinLetter`. */
  lemma ToLatinSpells(text: string)
    ensures ToLatin(text) == Transcribe(LatinLetter, text)
  {
    ToLatinLetterwise(text);
    LatinLetters();
    LetterwiseTranscribes(Table(), FirstKey, 0, LatinLetter, text);
  }

  /** Transliterating two texts one after the other is transliterating their concatenation. */
  lemma ToLatinAppend(a: string, b: string)
    ensures ToLatin(a + b) == ToLatin(a) + ToLatin(b)
  {
    ToLatinSpells(a);
    ToLatinSpells(b);
    ToLatinSpells(a + b);
    TranscribeAppend(LatinLetter, a, b);
  }

  /** Text without Cyrillic letters comes back unchanged. */
  lemma ToLatinKeepsForeign(text: string)
    requires forall k :: 0 <= k < |text| ==> !IsCyrillic(text[k])
    ensures ToLatin(text) == text
  {
    TableShape();
    KeysCyrillic();
    ForeignUnchanged(Table(), IsCyrillic, text);
  }

  /** A letter that is a whole key never survives into the result. */
  lemma ToLatinRemovesKeys(text: string, i: nat)
    requires i < Count && |Table()[i].0| == 1
    ensures Table()[i].0[0] !in ToLatin(text)
  {
    TableShape();
    var c := Table()[i].0[0];
    assert IsCyrillic(c);
    assert Table()[i].0 == [c];
    RemovesChar(Table(), text, c, i);
  }

  /** The result holds no Cyrillic letter that the text did not hold. */
  lemma ToLatinAddsNoCyrillic(text: string, c: char)
    requires IsCyrillic(c) && c !in text
    ensures c !in ToLatin(text)
  {
    TableShape();
    KeepsOut(Table(), text, c);
  }

  /** A character that is no key, such as a letter the table does not know, is kept. */
  lemma ToLatinKeepsUnkeyed(text: string, c: char)
    requires c in text && FirstKey(c) == None
    ensures c in ToLatin(text)
  {
    ToLatinSpells(text);
    LatinLetters();
    assert LatinLetter(c) == Piece(Table(), FirstKey, 0, c);
    TranscribeKeeps(LatinLetter, text, c);
  }

  lemma ForwardDead22(text: string)
    ensures ReplaceAll(ReplacePairs(text, Table()[..22]), Table()[22].0, Table()[22].1, Ordinal)
            == ReplacePairs(text, Table()[..22])
  {
    TableShape();
    DeadAfterCharRemoved(Table(), text, 20, 22);
  }

  lemma ForwardDead23(text: string)
    ensures ReplaceAll(ReplacePairs(text, Table()[..23]), Table()[23].0, Table()[23].1, Ordinal)
            == ReplacePairs(text, Table()[..23])
  {
    TableShape();
    DeadAfterCharRemoved(Table(), text, 21, 23);
  }

  lemma ForwardDead30(text: string)
    ensures ReplaceAll(ReplacePairs(text, Table()[..30]), Table()[30].0, Table()[30].1, Ordinal)
            == ReplacePairs(text, Table()[..30])
  {
    TableShape();
    DeadAfterCharRemoved(Table(), text, 28, 30);
  }

  lemma ForwardDead31(text: string)
    ensures ReplaceAll(ReplacePairs(text, Table()[..31]), Table()[31].0, Table()[31].1, Ordinal)
            == ReplacePairs(text, Table()[..31])
  {
    TableShape();
    DeadAfterCharRemoved(Table(), text, 29, 31);
  }

  /** The entries behind whose keys an earlier one-letter key already removed a letter: by the time the loop reaches them their Replace finds nothing. */
  lemma ForwardDeadEntries(text: string, k: nat)
    requires k in {22, 23, 30, 31}
    ensures ReplaceAll(ReplacePairs(text, Table()[..k]), Table()[k].0, Table()[k].1, Ordinal)
            == ReplacePairs(text, Table()[..k])
  {
    if k == 22 { ForwardDead22(text); } else if k == 23 { ForwardDead23(text); } else if k == 30 { ForwardDead30(text); } else { ForwardDead31(text); }
  }

  /** For an entry from `n` on whose value is longer than one letter, the pair of its first and
      last letters. */
  lemma ValueEnds(n: nat)
    ensures forall i :: n <= i < Count && |Table()[i].1| > 1 ==>
              (Table()[i].1[0], Table()[i].1[|Table()[i].1| - 1]) in LongValueEnds(n)
  {
    forall i | n <= i < Count && |Table()[i].1| > 1
      ensures (Table()[i].1[0], Table()[i].1[|Table()[i].1| - 1]) in LongValueEnds(n)
    {
      if i < 20 { LongEnds0(i); } else if i < 40 { LongEnds1(i); } else if i < 60 { LongEnds2(i); } else { LongEnds3(i); }
    }
  }

  /** No value of an entry from `n` on that is longer than one letter can occur in `s`: of each,
      the first or the last letter is missing. */
  predicate NoLongValue(n: nat, s: string) {
    forall e :: e in LongValueEnds(n) ==> e.0 !in s || e.1 !in s
  }

  /** NoLongValue read off a set that holds every character of `s`. */
  lemma NoLongValueWithin(n: nat, s: string, cs: set<char>)
    requires forall k :: 0 <= k < |s| ==> s[k] in cs
    requires forall e :: e in LongValueEnds(n) ==> e.0 !in cs || e.1 !in cs
    ensures NoLongValue(n, s)
  {
  }

  lemma BackwardInert(n: nat, s: string)
    requires NoLongValue(n, s)
    ensures Inert(Inverted(Table()), FirstValue, n, s)
  {
    ValueEnds(n);
  }

  lemma CyrillicLetters()
    ensures forall c :: Piece(Inverted(Table()), FirstValue, 0, c) == CyrillicLetter(c)
  {
    forall c ensures Piece(Inverted(Table()), FirstValue, 0, c) == CyrillicLetter(c) {
      if c < 'I' { CyrillicLetterAgrees0(c); } else if c < 'P' { CyrillicLetterAgrees1(c); } else if c < 'Y' { CyrillicLetterAgrees2(c); } else if c < 'e' { CyrillicLetterAgrees3(c); } else if c < 'm' { CyrillicLetterAgrees4(c); } else if c < 't' { CyrillicLetterAgrees5(c); } else { CyrillicLetterAgrees6(c); }
    }
  }

  lemma BackwardLetterwise(n: nat, s: string)
    requires n <= Count && NoLongValue(n, s)
    requires forall k :: 0 <= k < |s| && FirstValue(s[k]).Some? ==> n <= FirstValue(s[k]).value
    ensures ReplacePairs(s, Inverted(Table())[n..]) == Letterwise(Inverted(Table()), FirstValue, 0, s)
  {
    TableShape();
    ValuesIndexed(s);
    BackwardInert(n, s);
    FoldIsLetterwiseLate(Inverted(Table()), FirstValue, IsLatin, n, s);
  }

  /** From entry `n` on, on a text in which no later value longer than one letter can occur and
      whose letters all have their first one-letter entry at or after `n`, FromTransliteration finishes
      letter by letter with `CyrillicLetter`. */
  lemma BackwardFrom(n: nat, s: string)
    requires n <= Count && NoLongValue(n, s)
    requires forall k :: 0 <= k < |s| && FirstValue(s[k]).Some? ==> n <= FirstValue(s[k]).value
    ensures ReplacePairs(s, Inverted(Table())[n..]) == Transcribe(CyrillicLetter, s)
  {
    BackwardLetterwise(n, s);
    CyrillicLetters();
    LetterwiseTranscribes(Inverted(Table()), FirstValue, 0, CyrillicLetter, s);
  }

  /** Where no value longer than one letter can occur, FromTransliteration spells text letter by letter with
      `CyrillicLetter`. */
  lemma ToCyrillicSpells(text: string)
    requires NoLongValue(0, text)
    ensures ToCyrillic(text) == Transcribe(CyrillicLetter, text)
  {
    BackwardFrom(0, text);
    assert Inverted(Table())[0..] == Inverted(Table());
  }

  /** Text without Latin letters or underscores comes back unchanged. */
  lemma ToCyrillicKeepsForeign(text: string)
    requires forall k :: 0 <= k < |text| ==> !IsLatin(text[k])
    ensures ToCyrillic(text) == text
  {
    TableShape();
    ValuesLatin();
    ForeignUnchanged(Inverted(Table()), IsLatin, text);
  }

  /** A letter that is a whole value never survives into the result. */
  lemma ToCyrillicRemovesValues(text: string, i: nat)
    requires i < Count && |Table()[i].1| == 1
    ensures Table()[i].1[0] !in ToCyrillic(text)
  {
    TableShape();
    var c := Table()[i].1[0];
    assert IsLatin(c);
    assert Inverted(Table())[i].0 == [c];
    RemovesChar(Inverted(Table()), text, c, i);
  }

  /** The result holds no Latin letter that the text did not hold. */
  lemma ToCyrillicAddsNoLatin(text: string, c: char)
    requires IsLatin(c) && c !in text
    ensures c !in ToCyrillic(text)
  {
    TableShape();
    KeepsOut(Inverted(Table()), text, c);
  }

  /** A character that occurs in no value is kept. */
  lemma ToCyrillicKeepsUnvalued(text: string, c: char)
    requires c in text && forall i :: 0 <= i < Count ==> c !in Table()[i].1
    ensures c in ToCyrillic(text)
  {
    TableShape();
    KeepsIn(Inverted(Table()), text, c);
  }

  /** A character outside both alphabets, such as a space, splits the text into parts that
      FromTransliteration reads independently of each other. */
  lemma ToCyrillicAround(a: string, c: char, b: string)
    requires !IsLatin(c) && !IsCyrillic(c)
    ensures ToCyrillic(a + [c] + b) == ToCyrillic(a) + [c] + ToCyrillic(b)
  {
    TableShape();
    KeysCyrillic();
    ValuesLatin();
    ReplacePairsAround(a, c, b, Inverted(Table()));
  }

  lemma BackwardDead19(text: string)
    ensures ReplaceAll(ReplacePairs(text, Inverted(Table())[..19]), Inverted(Table())[19].0, Inverted(Table())[19].1, Ordinal)
            == ReplacePairs(text, Inverted(Table())[..19])
  {
    TableShape();
    DeadAfterSamePattern(Inverted(Table()), text, 18, 19);
  }

  lemma BackwardDead25(text: string)
    ensures ReplaceAll(ReplacePairs(text, Inverted(Table())[..25]), Inverted(Table())[25].0, Inverted(Table())[25].1, Ordinal)
            == ReplacePairs(text, Inverted(Table())[..25])
  {
    TableShape();
    DeadAfterCharRemoved(Inverted(Table()), text, 24, 25);
  }

  lemma BackwardDead34(text: string)
    ensures ReplaceAll(ReplacePairs(text, Inverted(Table())[..34]), Inverted(Table())[34].0, Inverted(Table())[34].1, Ordinal)
            == ReplacePairs(text, Inverted(Table())[..34])
  {
    TableShape();
    DeadAfterCharRemoved(Inverted(Table()), text, 32, 34);
  }

  lemma BackwardDead35(text: string)
    ensures ReplaceAll(ReplacePairs(text, Inverted(Table())[..35]), Inverted(Table())[35].0, Inverted(Table())[35].1, Ordinal)
            == ReplacePairs(text, Inverted(Table())[..35])
  {
    TableShape();
    DeadAfterCharRemoved(Inverted(Table()), text, 33, 35);
  }

  lemma BackwardDead40(text: string)
    ensures ReplaceAll(ReplacePairs(text, Inverted(Table())[..40]), Inverted(Table())[40].0, Inverted(Table())[40].1, Ordinal)
            == ReplacePairs(text, Inverted(Table())[..40])
  {
    TableShape();
    DeadAfterCharRemoved(Inverted(Table()), text, 38, 40);
  }

  lemma BackwardDead69(text: string)
    ensures ReplaceAll(ReplacePairs(text, Inverted(Table())[..69]), Inverted(Table())[69].0, Inverted(Table())[69].1, Ordinal)
            == ReplacePairs(text, Inverted(Table())[..69])
  {
    TableShape();
    DeadAfterCharRemoved(Inverted(Table()), text, 43, 69);
  }

  lemma BackwardDead70(text: string)
    ensures ReplaceAll(ReplacePairs(text, Inverted(Table())[..70]), Inverted(Table())[70].0, Inverted(Table())[70].1, Ordinal)
            == ReplacePairs(text, Inverted(Table())[..70])
  {
    TableShape();
    DeadAfterCharRemoved(Inverted(Table()), text, 44, 70);
  }

  lemma BackwardDead73(text: string)
    ensures ReplaceAll(ReplacePairs(text, Inverted(Table())[..73]), Inverted(Table())[73].0, Inverted(Table())[73].1, Ordinal)
            == ReplacePairs(text, Inverted(Table())[..73])
  {
    TableShape();
    DeadAfterCharRemoved(Inverted(Table()), text, 45, 73);
  }

  lemma BackwardDead74(text: string)
    ensures ReplaceAll(ReplacePairs(text, Inverted(Table())[..74]), Inverted(Table())[74].0, Inverted(Table())[74].1, Ordinal)
            == ReplacePairs(text, Inverted(Table())[..74])
  {
    TableShape();
    DeadAfterCharRemoved(Inverted(Table()), text, 46, 74);
  }

  lemma BackwardDead75(text: string)
    ensures ReplaceAll(ReplacePairs(text, Inverted(Table())[..75]), Inverted(Table())[75].0, Inverted(Table())[75].1, Ordinal)
            == ReplacePairs(text, Inverted(Table())[..75])
  {
    TableShape();
    DeadAfterCharRemoved(Inverted(Table()), text, 38, 75);
  }

  lemma BackwardDead76(text: string)
    ensures ReplaceAll(ReplacePairs(text, Inverted(Table())[..76]), Inverted(Table())[76].0, Inverted(Table())[76].1, Ordinal)
            == ReplacePairs(text, Inverted(Table())[..76])
  {
    TableShape();
    DeadAfterCharRemoved(Inverted(Table()), text, 39, 76);
  }

  /** The entries whose values an earlier entry already consumed, by the same value or by a one-letter value inside it: by the time the backward loop reaches them their Replace finds nothing. */
  lemma BackwardDeadEntries(text: string, k: nat)
    requires k in {19, 25, 34, 35, 40, 69, 70, 73, 74, 75, 76}
    ensures ReplaceAll(ReplacePairs(text, Inverted(Table())[..k]), Inverted(Table())[k].0, Inverted(Table())[k].1, Ordinal)
            == ReplacePairs(text, Inverted(Table())[..k])
  {
    if k == 19 { BackwardDead19(text); } else if k == 25 { BackwardDead25(text); } else if k == 34 { BackwardDead34(text); } else if k == 35 { BackwardDead35(text); } else if k == 40 { BackwardDead40(text); } else if k == 69 { BackwardDead69(text); } else if k == 70 { BackwardDead70(text); } else if k == 73 { BackwardDead73(text); } else if k == 74 { BackwardDead74(text); } else if k == 75 { BackwardDead75(text); } else { BackwardDead76(text); }
  }

  /** Text whose letters each come back from their own spelling, and whose spelling holds no
      value longer than one letter, survives the trip to Latin and back. */
  lemma RoundTrip(text: string)
    requires forall k :: 0 <= k < |text| ==> Transcribe(CyrillicLetter, LatinLetter(text[k])) == [text[k]]
    requires NoLongValue(0, ToLatin(text))
    ensures ToCyrillic(ToLatin(text)) == text
  {
    ToLatinSpells(text);
    ToCyrillicSpells(ToLatin(text));
    TranscribeTwice(LatinLetter, CyrillicLetter, text);
  }
}
