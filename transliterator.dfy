/** Transliterator of X.Text: the same scheme as CyrillicTransliterator over its own table of
    73 (key, value) pairs, in which є and э come before е, so that "ye" and "e" read back
    differently. */
module Transliterator {
  import opened Strings
  import opened SubstitutionTable
  import opened Wrappers

  const Count: nat := 73

  /** Entry `i` of the table, in the order the static constructor adds them. */
  function Entry(i: nat): (e: (string, string))
    requires i < Count
    ensures 0 < |e.0| && 0 < |e.1|

  {
    if i < 20 then Block0(i) else if i < 40 then Block1(i - 20) else if i < 60 then Block2(i - 40) else Block3(i - 60)
  }

  /** Entries 0 to 19. */
  function Block0(i: nat): (e: (string, string))
    requires i < 20
    ensures 0 < |e.0| && 0 < |e.1|

  {
    match i
    case 0 => ("щ", "shch")
    case 1 => ("Щ", "Shch")
    case 2 => ("ё", "yo")
    case 3 => ("Ё", "Yo")
    case 4 => ("є", "ye")
    case 5 => ("ж", "zh")
    case 6 => ("Ж", "Zh")
    case 7 => ("ї", "yi")
    case 8 => ("Ї", "Yi")
    case 9 => ("э", "e")
    case 10 => ("Э", "E")
    case 11 => ("ч", "ch")
    case 12 => ("Ч", "Ch")
    case 13 => ("ш", "sh")
    case 14 => ("Ш", "Sh")
    case 15 => ("ц", "ts")
    case 16 => ("Ц", "Ts")
    case 17 => ("ю", "yu")
    case 18 => ("Ю", "Yu")
    case _ => ("Я", "Ya")
  }

  /** Entries 20 to 39. */
  function Block1(i: nat): (e: (string, string))
    requires i < 20
    ensures 0 < |e.0| && 0 < |e.1|

  {
    match i
    case 0 => ("я", "ya")
    case 1 => ("ъ", "__")
    case 2 => ("Ъ", "__")
    case 3 => ("х", "kh")
    case 4 => ("Х", "Kh")
    case 5 => ("ь", "_")
    case 6 => ("Ь", "_")
    case 7 => ("б", "b")
    case 8 => ("Б", "B")
    case 9 => ("в", "v")
    case 10 => ("В", "V")
    case 11 => ("г", "g")
    case 12 => ("Г", "G")
    case 13 => ("ґ", "g")
    case 14 => ("Ґ", "G")
    case 15 => ("д", "d")
    case 16 => ("Д", "D")
    case 17 => ("е", "e")
    case 18 => ("Е", "E")
    case _ => ("з", "z")
  }

  /** Entries 40 to 59. */
  function Block2(i: nat): (e: (string, string))
    requires i < 20
    ensures 0 < |e.0| && 0 < |e.1|

  {
    match i
    case 0 => ("З", "Z")
    case 1 => ("и", "i")
    case 2 => ("И", "I")
    case 3 => ("й", "y")
    case 4 => ("Й", "Y")
    case 5 => ("к", "k")
    case 6 => ("К", "K")
    case 7 => ("л", "l")
    case 8 => ("Л", "L")
    case 9 => ("м", "m")
    case 10 => ("М", "M")
    case 11 => ("н", "n")
    case 12 => ("Н", "N")
    case 13 => ("п", "p")
    case 14 => ("П", "P")
    case 15 => ("р", "r")
    case 16 => ("Р", "R")
    case 17 => ("с", "s")
    case 18 => ("С", "S")
    case _ => ("т", "t")
  }

  /** Entries 60 to 72. */
  function Block3(i: nat): (e: (string, string))
    requires i < 13
    ensures 0 < |e.0| && 0 < |e.1|

  {
    match i
    case 0 => ("Т", "T")
    case 1 => ("о", "o")
    case 2 => ("О", "O")
    case 3 => ("а", "a")
    case 4 => ("А", "A")
    case 5 => ("ф", "f")
    case 6 => ("Ф", "F")
    case 7 => ("і", "i")
    case 8 => ("І", "I")
    case 9 => ("У", "U")
    case 10 => ("у", "u")
    case 11 => ("ы", "y")
    case _ => ("Ы", "Y")
  }

  /** The whole table, entry by entry. */
  function Table(): (t: seq<(string, string)>)
    ensures |t| == Count && forall i :: 0 <= i < Count ==> t[i] == Entry(i)
  {
    seq(Count, i requires 0 <= i < Count => Entry(i))
  }

  /** The first entry whose key is exactly the letter `c`. */
  function FirstKey(c: char): Option<nat> {
    if c < 'Г' then FirstKey0(c)
    else if c < 'Й' then FirstKey1(c)
    else if c < 'П' then FirstKey2(c)
    else if c < 'Х' then FirstKey3(c)
    else if c < 'Ы' then FirstKey4(c)
    else if c < 'б' then FirstKey5(c)
    else if c < 'з' then FirstKey6(c)
    else if c < 'н' then FirstKey7(c)
    else if c < 'у' then FirstKey8(c)
    else if c < 'щ' then FirstKey9(c)
    else if c < 'я' then FirstKey10(c)
    else if c < 'ґ' then FirstKey11(c)
    else FirstKey12(c)
  }

  function FirstKey0(c: char): Option<nat> {
    match c
    case 'Ё' => Some(3)
    case 'І' => Some(68)
    case 'Ї' => Some(8)
    case 'А' => Some(64)
    case 'Б' => Some(28)
    case 'В' => Some(30)
    case _ => None
  }

  function FirstKey1(c: char): Option<nat> {
    match c
    case 'Г' => Some(32)
    case 'Д' => Some(36)
    case 'Е' => Some(38)
    case 'Ж' => Some(6)
    case 'З' => Some(40)
    case 'И' => Some(42)
    case _ => None
  }

  function FirstKey2(c: char): Option<nat> {
    match c
    case 'Й' => Some(44)
    case 'К' => Some(46)
    case 'Л' => Some(48)
    case 'М' => Some(50)
    case 'Н' => Some(52)
    case 'О' => Some(62)
    case _ => None
  }

  function FirstKey3(c: char): Option<nat> {
    match c
    case 'П' => Some(54)
    case 'Р' => Some(56)
    case 'С' => Some(58)
    case 'Т' => Some(60)
    case 'У' => Some(69)
    case 'Ф' => Some(66)
    case _ => None
  }

  function FirstKey4(c: char): Option<nat> {
    match c
    case 'Х' => Some(24)
    case 'Ц' => Some(16)
    case 'Ч' => Some(12)
    case 'Ш' => Some(14)
    case 'Щ' => Some(1)
    case 'Ъ' => Some(22)
    case _ => None
  }

  function FirstKey5(c: char): Option<nat> {
    match c
    case 'Ы' => Some(72)
    case 'Ь' => Some(26)
    case 'Э' => Some(10)
    case 'Ю' => Some(18)
    case 'Я' => Some(19)
    case 'а' => Some(63)
    case _ => None
  }

  function FirstKey6(c: char): Option<nat> {
    match c
    case 'б' => Some(27)
    case 'в' => Some(29)
    case 'г' => Some(31)
    case 'д' => Some(35)
    case 'е' => Some(37)
    case 'ж' => Some(5)
    case _ => None
  }

  function FirstKey7(c: char): Option<nat> {
    match c
    case 'з' => Some(39)
    case 'и' => Some(41)
    case 'й' => Some(43)
    case 'к' => Some(45)
    case 'л' => Some(47)
    case 'м' => Some(49)
    case _ => None
  }

  function FirstKey8(c: char): Option<nat> {
    match c
    case 'н' => Some(51)
    case 'о' => Some(61)
    case 'п' => Some(53)
    case 'р' => Some(55)
    case 'с' => Some(57)
    case 'т' => Some(59)
    case _ => None
  }

  function FirstKey9(c: char): Option<nat> {
    match c
    case 'у' => Some(70)
    case 'ф' => Some(65)
    case 'х' => Some(23)
    case 'ц' => Some(15)
    case 'ч' => Some(11)
    case 'ш' => Some(13)
    case _ => None
  }

  function FirstKey10(c: char): Option<nat> {
    match c
    case 'щ' => Some(0)
    case 'ъ' => Some(21)
    case 'ы' => Some(71)
    case 'ь' => Some(25)
    case 'э' => Some(9)
    case 'ю' => Some(17)
    case _ => None
  }

  function FirstKey11(c: char): Option<nat> {
    match c
    case 'я' => Some(20)
    case 'ё' => Some(2)
    case 'є' => Some(4)
    case 'і' => Some(67)
    case 'ї' => Some(7)
    case 'Ґ' => Some(34)
    case _ => None
  }

  function FirstKey12(c: char): Option<nat> {
    match c
    case 'ґ' => Some(33)
    case _ => None
  }

  /** The first entry whose value is exactly the letter `c`. */
  function FirstValue(c: char): Option<nat> {
    if c < 'I' then FirstValue0(c)
    else if c < 'P' then FirstValue1(c)
    else if c < 'Y' then FirstValue2(c)
    else if c < 'e' then FirstValue3(c)
    else if c < 'm' then FirstValue4(c)
    else if c < 't' then FirstValue5(c)
    else FirstValue6(c)
  }

  function FirstValue0(c: char): Option<nat> {
    match c
    case 'A' => Some(64)
    case 'B' => Some(28)
    case 'D' => Some(36)
    case 'E' => Some(10)
    case 'F' => Some(66)
    case 'G' => Some(32)
    case _ => None
  }

  function FirstValue1(c: char): Option<nat> {
    match c
    case 'I' => Some(42)
    case 'K' => Some(46)
    case 'L' => Some(48)
    case 'M' => Some(50)
    case 'N' => Some(52)
    case 'O' => Some(62)
    case _ => None
  }

  function FirstValue2(c: char): Option<nat> {
    match c
    case 'P' => Some(54)
    case 'R' => Some(56)
    case 'S' => Some(58)
    case 'T' => Some(60)
    case 'U' => Some(69)
    case 'V' => Some(30)
    case _ => None
  }

  function FirstValue3(c: char): Option<nat> {
    match c
    case 'Y' => Some(44)
    case 'Z' => Some(40)
    case '_' => Some(25)
    case 'a' => Some(63)
    case 'b' => Some(27)
    case 'd' => Some(35)
    case _ => None
  }

  function FirstValue4(c: char): Option<nat> {
    match c
    case 'e' => Some(9)
    case 'f' => Some(65)
    case 'g' => Some(31)
    case 'i' => Some(41)
    case 'k' => Some(45)
    case 'l' => Some(47)
    case _ => None
  }

  function FirstValue5(c: char): Option<nat> {
    match c
    case 'm' => Some(49)
    case 'n' => Some(51)
    case 'o' => Some(61)
    case 'p' => Some(53)
    case 'r' => Some(55)
    case 's' => Some(57)
    case _ => None
  }

  function FirstValue6(c: char): Option<nat> {
    match c
    case 't' => Some(59)
    case 'u' => Some(70)
    case 'v' => Some(29)
    case 'y' => Some(43)
    case 'z' => Some(39)
    case _ => None
  }

  /** How the forward direction spells the letter `c`. */
  function LatinLetter(c: char): string {
    if c < 'Г' then LatinLetter0(c)
    else if c < 'Й' then LatinLetter1(c)
    else if c < 'П' then LatinLetter2(c)
    else if c < 'Х' then LatinLetter3(c)
    else if c < 'Ы' then LatinLetter4(c)
    else if c < 'б' then LatinLetter5(c)
    else if c < 'з' then LatinLetter6(c)
    else if c < 'н' then LatinLetter7(c)
    else if c < 'у' then LatinLetter8(c)
    else if c < 'щ' then LatinLetter9(c)
    else if c < 'я' then LatinLetter10(c)
    else if c < 'ґ' then LatinLetter11(c)
    else LatinLetter12(c)
  }

  function LatinLetter0(c: char): string {
    match c
    case 'Ё' => "Yo"
    case 'І' => "I"
    case 'Ї' => "Yi"
    case 'А' => "A"
    case 'Б' => "B"
    case 'В' => "V"
    case _ => [c]
  }

  function LatinLetter1(c: char): string {
    match c
    case 'Г' => "G"
    case 'Д' => "D"
    case 'Е' => "E"
    case 'Ж' => "Zh"
    case 'З' => "Z"
    case 'И' => "I"
    case _ => [c]
  }

  function LatinLetter2(c: char): string {
    match c
    case 'Й' => "Y"
    case 'К' => "K"
    case 'Л' => "L"
    case 'М' => "M"
    case 'Н' => "N"
    case 'О' => "O"
    case _ => [c]
  }

  function LatinLetter3(c: char): string {
    match c
    case 'П' => "P"
    case 'Р' => "R"
    case 'С' => "S"
    case 'Т' => "T"
    case 'У' => "U"
    case 'Ф' => "F"
    case _ => [c]
  }

  function LatinLetter4(c: char): string {
    match c
    case 'Х' => "Kh"
    case 'Ц' => "Ts"
    case 'Ч' => "Ch"
    case 'Ш' => "Sh"
    case 'Щ' => "Shch"
    case 'Ъ' => "__"
    case _ => [c]
  }

  function LatinLetter5(c: char): string {
    match c
    case 'Ы' => "Y"
    case 'Ь' => "_"
    case 'Э' => "E"
    case 'Ю' => "Yu"
    case 'Я' => "Ya"
    case 'а' => "a"
    case _ => [c]
  }

  function LatinLetter6(c: char): string {
    match c
    case 'б' => "b"
    case 'в' => "v"
    case 'г' => "g"
    case 'д' => "d"
    case 'е' => "e"
    case 'ж' => "zh"
    case _ => [c]
  }

  function LatinLetter7(c: char): string {
    match c
    case 'з' => "z"
    case 'и' => "i"
    case 'й' => "y"
    case 'к' => "k"
    case 'л' => "l"
    case 'м' => "m"
    case _ => [c]
  }

  function LatinLetter8(c: char): string {
    match c
    case 'н' => "n"
    case 'о' => "o"
    case 'п' => "p"
    case 'р' => "r"
    case 'с' => "s"
    case 'т' => "t"
    case _ => [c]
  }

  function LatinLetter9(c: char): string {
    match c
    case 'у' => "u"
    case 'ф' => "f"
    case 'х' => "kh"
    case 'ц' => "ts"
    case 'ч' => "ch"
    case 'ш' => "sh"
    case _ => [c]
  }

  function LatinLetter10(c: char): string {
    match c
    case 'щ' => "shch"
    case 'ъ' => "__"
    case 'ы' => "y"
    case 'ь' => "_"
    case 'э' => "e"
    case 'ю' => "yu"
    case _ => [c]
  }

  function LatinLetter11(c: char): string {
    match c
    case 'я' => "ya"
    case 'ё' => "yo"
    case 'є' => "ye"
    case 'і' => "i"
    case 'ї' => "yi"
    case 'Ґ' => "G"
    case _ => [c]
  }

  function LatinLetter12(c: char): string {
    match c
    case 'ґ' => "g"
    case _ => [c]
  }

  lemma LatinLetterAgrees0(c: char)
    requires c < 'Г'
    ensures Piece(Table(), FirstKey, 0, c) == LatinLetter(c)
  {
  }

  lemma LatinLetterAgrees1(c: char)
    requires 'Г' <= c && c < 'Й'
    ensures Piece(Table(), FirstKey, 0, c) == LatinLetter(c)
  {
  }

  lemma LatinLetterAgrees2(c: char)
    requires 'Й' <= c && c < 'П'
    ensures Piece(Table(), FirstKey, 0, c) == LatinLetter(c)
  {
  }

  lemma LatinLetterAgrees3(c: char)
    requires 'П' <= c && c < 'Х'
    ensures Piece(Table(), FirstKey, 0, c) == LatinLetter(c)
  {
  }

  lemma LatinLetterAgrees4(c: char)
    requires 'Х' <= c && c < 'Ы'
    ensures Piece(Table(), FirstKey, 0, c) == LatinLetter(c)
  {
  }

  lemma LatinLetterAgrees5(c: char)
    requires 'Ы' <= c && c < 'б'
    ensures Piece(Table(), FirstKey, 0, c) == LatinLetter(c)
  {
  }

  lemma LatinLetterAgrees6(c: char)
    requires 'б' <= c && c < 'з'
    ensures Piece(Table(), FirstKey, 0, c) == LatinLetter(c)
  {
  }

  lemma LatinLetterAgrees7(c: char)
    requires 'з' <= c && c < 'н'
    ensures Piece(Table(), FirstKey, 0, c) == LatinLetter(c)
  {
  }

  lemma LatinLetterAgrees8(c: char)
    requires 'н' <= c && c < 'у'
    ensures Piece(Table(), FirstKey, 0, c) == LatinLetter(c)
  {
  }

  lemma LatinLetterAgrees9(c: char)
    requires 'у' <= c && c < 'щ'
    ensures Piece(Table(), FirstKey, 0, c) == LatinLetter(c)
  {
  }

  lemma LatinLetterAgrees10(c: char)
    requires 'щ' <= c && c < 'я'
    ensures Piece(Table(), FirstKey, 0, c) == LatinLetter(c)
  {
  }

  lemma LatinLetterAgrees11(c: char)
    requires 'я' <= c && c < 'ґ'
    ensures Piece(Table(), FirstKey, 0, c) == LatinLetter(c)
  {
  }

  lemma LatinLetterAgrees12(c: char)
    requires 'ґ' <= c
    ensures Piece(Table(), FirstKey, 0, c) == LatinLetter(c)
  {
  }

  /** How the backward direction spells the letter `c` where no longer value can occur. */
  function CyrillicLetter(c: char): string {
    if c < 'I' then CyrillicLetter0(c)
    else if c < 'P' then CyrillicLetter1(c)
    else if c < 'Y' then CyrillicLetter2(c)
    else if c < 'e' then CyrillicLetter3(c)
    else if c < 'm' then CyrillicLetter4(c)
    else if c < 't' then CyrillicLetter5(c)
    else CyrillicLetter6(c)
  }

  function CyrillicLetter0(c: char): string {
    match c
    case 'A' => "А"
    case 'B' => "Б"
    case 'D' => "Д"
    case 'E' => "Э"
    case 'F' => "Ф"
    case 'G' => "Г"
    case _ => [c]
  }

  function CyrillicLetter1(c: char): string {
    match c
    case 'I' => "И"
    case 'K' => "К"
    case 'L' => "Л"
    case 'M' => "М"
    case 'N' => "Н"
    case 'O' => "О"
    case _ => [c]
  }

  function CyrillicLetter2(c: char): string {
    match c
    case 'P' => "П"
    case 'R' => "Р"
    case 'S' => "С"
    case 'T' => "Т"
    case 'U' => "У"
    case 'V' => "В"
    case _ => [c]
  }

  function CyrillicLetter3(c: char): string {
    match c
    case 'Y' => "Й"
    case 'Z' => "З"
    case '_' => "ь"
    case 'a' => "а"
    case 'b' => "б"
    case 'd' => "д"
    case _ => [c]
  }

  function CyrillicLetter4(c: char): string {
    match c
    case 'e' => "э"
    case 'f' => "ф"
    case 'g' => "г"
    case 'i' => "и"
    case 'k' => "к"
    case 'l' => "л"
    case _ => [c]
  }

  function CyrillicLetter5(c: char): string {
    match c
    case 'm' => "м"
    case 'n' => "н"
    case 'o' => "о"
    case 'p' => "п"
    case 'r' => "р"
    case 's' => "с"
    case _ => [c]
  }

  function CyrillicLetter6(c: char): string {
    match c
    case 't' => "т"
    case 'u' => "у"
    case 'v' => "в"
    case 'y' => "й"
    case 'z' => "з"
    case _ => [c]
  }

  lemma CyrillicLetterAgrees0(c: char)
    requires c < 'I'
    ensures Piece(Inverted(Table()), FirstValue, 0, c) == CyrillicLetter(c)
  {
  }

  lemma CyrillicLetterAgrees1(c: char)
    requires 'I' <= c && c < 'P'
    ensures Piece(Inverted(Table()), FirstValue, 0, c) == CyrillicLetter(c)
  {
  }

  lemma CyrillicLetterAgrees2(c: char)
    requires 'P' <= c && c < 'Y'
    ensures Piece(Inverted(Table()), FirstValue, 0, c) == CyrillicLetter(c)
  {
  }

  lemma CyrillicLetterAgrees3(c: char)
    requires 'Y' <= c && c < 'e'
    ensures Piece(Inverted(Table()), FirstValue, 0, c) == CyrillicLetter(c)
  {
  }

  lemma CyrillicLetterAgrees4(c: char)
    requires 'e' <= c && c < 'm'
    ensures Piece(Inverted(Table()), FirstValue, 0, c) == CyrillicLetter(c)
  {
  }

  lemma CyrillicLetterAgrees5(c: char)
    requires 'm' <= c && c < 't'
    ensures Piece(Inverted(Table()), FirstValue, 0, c) == CyrillicLetter(c)
  {
  }

  lemma CyrillicLetterAgrees6(c: char)
    requires 't' <= c
    ensures Piece(Inverted(Table()), FirstValue, 0, c) == CyrillicLetter(c)
  {
  }

  /** The first and last letters of every value longer than one letter from entry `n` on
      (coarsely: of the whole table before entry 25, from which on the set is smaller). */
  function LongValueEnds(n: nat): set<(char, char)> {
    if n < 25 then
      {('s', 'h'), ('S', 'h'), ('y', 'o'), ('Y', 'o'), ('y', 'e'), ('z', 'h'), ('Z', 'h'), ('y', 'i'), ('Y', 'i'), ('c', 'h'), ('C', 'h'), ('t', 's'), ('T', 's'), ('y', 'u'), ('Y', 'u'), ('Y', 'a'), ('y', 'a'), ('_', '_'), ('k', 'h'), ('K', 'h')}
    else
      {}
  }

  lemma LongEnds0(i: nat)
    requires i < 20
    ensures var v := Table()[i].1;
            |v| > 1 ==> (v[0], v[|v| - 1]) in LongValueEnds(0)
  {
  }

  lemma LongEnds1(i: nat)
    requires 20 <= i < 40
    ensures var v := Table()[i].1;
            |v| > 1 ==> (v[0], v[|v| - 1]) in LongValueEnds(0) && (25 <= i ==> (v[0], v[|v| - 1]) in LongValueEnds(25))
  {
  }

  lemma LongEnds2(i: nat)
    requires 40 <= i < 60
    ensures var v := Table()[i].1;
            |v| > 1 ==> (v[0], v[|v| - 1]) in LongValueEnds(0) && (v[0], v[|v| - 1]) in LongValueEnds(25)
  {
  }

  lemma LongEnds3(i: nat)
    requires 60 <= i < 73
    ensures var v := Table()[i].1;
            |v| > 1 ==> (v[0], v[|v| - 1]) in LongValueEnds(0) && (v[0], v[|v| - 1]) in LongValueEnds(25)
  {
  }

  /** Entry `i` spells its key in Cyrillic letters and its value in Latin ones. */
  predicate Scripts(i: nat)
    requires i < Count
  {
    var t := Table();
    |t[i].0| > 0 && |t[i].1| > 0
    && (forall k :: 0 <= k < |t[i].0| ==> IsCyrillic(t[i].0[k]))
    && (forall k :: 0 <= k < |t[i].1| ==> IsLatin(t[i].1[k]))
  }

  lemma KeysFound0(s: string, i: nat)
    requires i < 20
    ensures IndexedAt(Table(), FirstKey, 0, s, i) && InertAt(Table(), FirstKey, 0, s, i)
  {
  }

  lemma ScriptsHold0(i: nat)
    requires i < 20
    ensures Scripts(i)
  {
  }

  lemma ValuesFound0(s: string, i: nat)
    requires i < 20
    ensures IndexedAt(Inverted(Table()), FirstValue, 0, s, i)
  {
  }

  lemma KeysFound1(s: string, i: nat)
    requires 20 <= i < 40
    ensures IndexedAt(Table(), FirstKey, 0, s, i) && InertAt(Table(), FirstKey, 0, s, i)
  {
  }

  lemma ScriptsHold1(i: nat)
    requires 20 <= i < 40
    ensures Scripts(i)
  {
  }

  lemma ValuesFound1(s: string, i: nat)
    requires 20 <= i < 40
    ensures IndexedAt(Inverted(Table()), FirstValue, 0, s, i)
  {
  }

  lemma KeysFound2(s: string, i: nat)
    requires 40 <= i < 60
    ensures IndexedAt(Table(), FirstKey, 0, s, i) && InertAt(Table(), FirstKey, 0, s, i)
  {
  }

  lemma ScriptsHold2(i: nat)
    requires 40 <= i < 60
    ensures Scripts(i)
  {
  }

  lemma ValuesFound2(s: string, i: nat)
    requires 40 <= i < 60
    ensures IndexedAt(Inverted(Table()), FirstValue, 0, s, i)
  {
  }

  lemma KeysFound3(s: string, i: nat)
    requires 60 <= i < 73
    ensures IndexedAt(Table(), FirstKey, 0, s, i) && InertAt(Table(), FirstKey, 0, s, i)
  {
  }

  lemma ScriptsHold3(i: nat)
    requires 60 <= i < 73
    ensures Scripts(i)
  {
  }

  lemma ValuesFound3(s: string, i: nat)
    requires 60 <= i < 73
    ensures IndexedAt(Inverted(Table()), FirstValue, 0, s, i)
  {
  }

  lemma EveryEntryScripts()
    ensures forall j :: 0 <= j < Count ==> Scripts(j)
  {
    forall j | 0 <= j < Count ensures Scripts(j) {
      if j < 20 { ScriptsHold0(j); } else if j < 40 { ScriptsHold1(j); } else if j < 60 { ScriptsHold2(j); } else { ScriptsHold3(j); }
    }
  }

  lemma KeysCyrillic()
    ensures forall j, k :: 0 <= j < |Table()| && 0 <= k < |Table()[j].0| ==> IsCyrillic(Table()[j].0[k])
  {
    EveryEntryScripts();
    forall j, k | 0 <= j < |Table()| && 0 <= k < |Table()[j].0| ensures IsCyrillic(Table()[j].0[k]) {
      assert Scripts(j);
    }
  }

  lemma ValuesLatin()
    ensures forall j, k :: 0 <= j < |Table()| && 0 <= k < |Table()[j].1| ==> IsLatin(Table()[j].1[k])
  {
    EveryEntryScripts();
    forall j, k | 0 <= j < |Table()| && 0 <= k < |Table()[j].1| ensures IsLatin(Table()[j].1[k]) {
      assert Scripts(j);
    }
  }

  lemma NonEmpty()
    ensures WellFormed(Table())
  {
    EveryEntryScripts();
  }

  /** Keys are non-empty words of Cyrillic letters and values non-empty words of Latin ones, so
      both directions are legal folds and each reads one alphabet and writes the other. */
  lemma TableShape()
    ensures WellFormed(Table()) && WellFormed(Inverted(Table()))
    ensures Separated(Table(), 0, IsCyrillic) && Separated(Inverted(Table()), 0, IsLatin)
  {
    NonEmpty();
    KeysCyrillic();
    ValuesLatin();
    Bilingual(Table(), IsCyrillic, IsLatin);
  }

  lemma KeysIndexed(s: string)
    ensures Indexed(Table(), FirstKey, 0, s) && Inert(Table(), FirstKey, 0, s)
  {
    forall i | 0 <= i < Count
      ensures IndexedAt(Table(), FirstKey, 0, s, i) && InertAt(Table(), FirstKey, 0, s, i)
    {
      if i < 20 { KeysFound0(s, i); } else if i < 40 { KeysFound1(s, i); } else if i < 60 { KeysFound2(s, i); } else { KeysFound3(s, i); }
    }
  }

  lemma ValuesIndexed(s: string)
    ensures Indexed(Inverted(Table()), FirstValue, 0, s)
  {
    forall i | 0 <= i < Count ensures IndexedAt(Inverted(Table()), FirstValue, 0, s, i) {
      if i < 20 { ValuesFound0(s, i); } else if i < 40 { ValuesFound1(s, i); } else if i < 60 { ValuesFound2(s, i); } else { ValuesFound3(s, i); }
    }
  }

  /** What FromCyrillicToTransliteration computes: each key replaced by its value, one entry after the other. */
  function ToLatin(text: string): string {
    TableShape();
    Forward(Table(), text)
  }

  /** What FromTransliterationToCyrillic computes: each value replaced by its key, one entry after the other. */
  function ToCyrillic(text: string): string {
    TableShape();
    Backward(Table(), text)
  }

  /** FromCyrillicToTransliteration: one ordinal Replace(key, value) per entry, in table order. */
  method FromCyrillicToTransliteration(text: string) returns (r: string)
    ensures r == ToLatin(text)
  {
    TableShape();
    var table := Table();
    r := text;
    assert table[0..] == table;
    for i := 0 to |table|
      invariant ReplacePairs(r, table[i..]) == ReplacePairs(text, table)
    {
      Step(table, i, r);
      r := ReplaceAll(r, table[i].0, table[i].1, Ordinal);
    }
    assert table[|table|..] == [];
  }

  /** FromTransliterationToCyrillic: one ordinal Replace(value, key) per entry, in table order. */
  method FromTransliterationToCyrillic(text: string) returns (r: string)
    ensures r == ToCyrillic(text)
  {
    TableShape();
    var table := Inverted(Table());
    r := text;
    assert table[0..] == table;
    for i := 0 to |table|
      invariant ReplacePairs(r, table[i..]) == ReplacePairs(text, table)
    {
      Step(table, i, r);
      r := ReplaceAll(r, table[i].0, table[i].1, Ordinal);
    }
    assert table[|table|..] == [];
  }

  /** Cyrillic to Latin is a letter-by-letter substitution: each letter that keys an entry becomes
      the value of the first such entry, every other character stays. */
  lemma {:induction false} ToLatinLetterwise(text: string)
    ensures ToLatin(text) == Letterwise(Table(), FirstKey, 0, text)
  {
    TableShape();
    KeysIndexed(text);
    FoldIsLetterwise(Table(), FirstKey, IsCyrillic, 0, text);
    assert Table()[0..] == Table();
  }

  lemma LatinLetters()
    ensures forall c :: Piece(Table(), FirstKey, 0, c) == LatinLetter(c)
  {
    forall c ensures Piece(Table(), FirstKey, 0, c) == LatinLetter(c) {
      if c < 'Г' { LatinLetterAgrees0(c); } else if c < 'Й' { LatinLetterAgrees1(c); } else if c < 'П' { LatinLetterAgrees2(c); } else if c < 'Х' { LatinLetterAgrees3(c); } else if c < 'Ы' { LatinLetterAgrees4(c); } else if c < 'б' { LatinLetterAgrees5(c); } else if c < 'з' { LatinLetterAgrees6(c); } else if c < 'н' { LatinLetterAgrees7(c); } else if c < 'у' { LatinLetterAgrees8(c); } else if c < 'щ' { LatinLetterAgrees9(c); } else if c < 'я' { LatinLetterAgrees10(c); } else if c < 'ґ' { LatinLetterAgrees11(c); } else { LatinLetterAgrees12(c); }
    }
  }

  /** FromCyrillicToTransliteration spells any text letter by letter with `LatinLetter`. */
  lemma ToLatinSpells(text: string)
    ensures ToLatin(text) == Transcribe(LatinLetter, text)
  {
    ToLatinLetterwise(text);
    LatinLetters();
    LetterwiseTranscribes(Table(), FirstKey, 0, LatinLetter, text);
  }

  /** Transliterating two texts one after the other is transliterating their concatenation. */
  lemma ToLatinAppend(a: string, b: string)
    ensures ToLatin(a + b) == ToLatin(a) + ToLatin(b)
  {
    ToLatinSpells(a);
    ToLatinSpells(b);
    ToLatinSpells(a + b);
    TranscribeAppend(LatinLetter, a, b);
  }

  /** Text without Cyrillic letters comes back unchanged. */
  lemma ToLatinKeepsForeign(text: string)
    requires forall k :: 0 <= k < |text| ==> !IsCyrillic(text[k])
    ensures ToLatin(text) == text
  {
    TableShape();
    KeysCyrillic();
    ForeignUnchanged(Table(), IsCyrillic, text);
  }

  /** A letter that is a whole key never survives into the result. */
  lemma ToLatinRemovesKeys(text: string, i: nat)
    requires i < Count && |Table()[i].0| == 1
    ensures Table()[i].0[0] !in ToLatin(text)
  {
    TableShape();
    var c := Table()[i].0[0];
    assert IsCyrillic(c);
    assert Table()[i].0 == [c];
    RemovesChar(Table(), text, c, i);
  }

  /** The result holds no Cyrillic letter that the text did not hold. */
  lemma ToLatinAddsNoCyrillic(text: string, c: char)
    requires IsCyrillic(c) && c !in text
    ensures c !in ToLatin(text)
  {
    TableShape();
    KeepsOut(Table(), text, c);
  }

  /** A character that is no key, such as a letter the table does not know, is kept. */
  lemma ToLatinKeepsUnkeyed(text: string, c: char)
    requires c in text && FirstKey(c) == None
    ensures c in ToLatin(text)
  {
    ToLatinSpells(text);
    LatinLetters();
    assert LatinLetter(c) == Piece(Table(), FirstKey, 0, c);
    TranscribeKeeps(LatinLetter, text, c);
  }

  /** For an entry from `n` on whose value is longer than one letter, the pair of its first and
      last letters. */
  lemma ValueEnds(n: nat)
    ensures forall i :: n <= i < Count && |Table()[i].1| > 1 ==>
              (Table()[i].1[0], Table()[i].1[|Table()[i].1| - 1]) in LongValueEnds(n)
  {
    forall i | n <= i < Count && |Table()[i].1| > 1
      ensures (Table()[i].1[0], Table()[i].1[|Table()[i].1| - 1]) in LongValueEnds(n)
    {
      if i < 20 { LongEnds0(i); } else if i < 40 { LongEnds1(i); } else if i < 60 { LongEnds2(i); } else { LongEnds3(i); }
    }
  }

  /** No value of an entry from `n` on that is longer than one letter can occur in `s`: of each,
      the first or the last letter is missing. */
  predicate NoLongValue(n: nat, s: string) {
    forall e :: e in LongValueEnds(n) ==> e.0 !in s || e.1 !in s
  }

  /** NoLongValue read off a set that holds every character of `s`. */
  lemma NoLongValueWithin(n: nat, s: string, cs: set<char>)
    requires forall k :: 0 <= k < |s| ==> s[k] in cs
    requires forall e :: e in LongValueEnds(n) ==> e.0 !in cs || e.1 !in cs
    ensures NoLongValue(n, s)
  {
  }

  lemma BackwardInert(n: nat, s: string)
    requires NoLongValue(n, s)
    ensures Inert(Inverted(Table()), FirstValue, n, s)
  {
    ValueEnds(n);
  }

  lemma CyrillicLetters()
    ensures forall c :: Piece(Inverted(Table()), FirstValue, 0, c) == CyrillicLetter(c)
  {
    forall c ensures Piece(Inverted(Table()), FirstValue, 0, c) == CyrillicLetter(c) {
      if c < 'I' { CyrillicLetterAgrees0(c); } else if c < 'P' { CyrillicLetterAgrees1(c); } else if c < 'Y' { CyrillicLetterAgrees2(c); } else if c < 'e' { CyrillicLetterAgrees3(c); } else if c < 'm' { CyrillicLetterAgrees4(c); } else if c < 't' { CyrillicLetterAgrees5(c); } else { CyrillicLetterAgrees6(c); }
    }
  }

  lemma BackwardLetterwise(n: nat, s: string)
    requires n <= Count && NoLongValue(n, s)
    requires forall k :: 0 <= k < |s| && FirstValue(s[k]).Some? ==> n <= FirstValue(s[k]).value
    ensures ReplacePairs(s, Inverted(Table())[n..]) == Letterwise(Inverted(Table()), FirstValue, 0, s)
  {
    TableShape();
    ValuesIndexed(s);
    BackwardInert(n, s);
    FoldIsLetterwiseLate(Inverted(Table()), FirstValue, IsLatin, n, s);
  }

  /** From entry `n` on, on a text in which no later value longer than one letter can occur and
      whose letters all have their first one-letter entry at or after `n`, FromTransliterationToCyrillic finishes
      letter by letter with `CyrillicLetter`. */
  lemma BackwardFrom(n: nat, s: string)
    requires n <= Count && NoLongValue(n, s)
    requires forall k :: 0 <= k < |s| && FirstValue(s[k]).Some? ==> n <= FirstValue(s[k]).value
    ensures ReplacePairs(s, Inverted(Table())[n..]) == Transcribe(CyrillicLetter, s)
  {
    BackwardLetterwise(n, s);
    CyrillicLetters();
    LetterwiseTranscribes(Inverted(Table()), FirstValue, 0, CyrillicLetter, s);
  }

  /** Where no value longer than one letter can occur, FromTransliterationToCyrillic spells text letter by letter with
      `CyrillicLetter`. */
  lemma ToCyrillicSpells(text: string)
    requires NoLongValue(0, text)
    ensures ToCyrillic(text) == Transcribe(CyrillicLetter, text)
  {
    BackwardFrom(0, text);
    assert Inverted(Table())[0..] == Inverted(Table());
  }

  /** Text without Latin letters or underscores comes back unchanged. */
  lemma ToCyrillicKeepsForeign(text: string)
    requires forall k :: 0 <= k < |text| ==> !IsLatin(text[k])
    ensures ToCyrillic(text) == text
  {
    TableShape();
    ValuesLatin();
    ForeignUnchanged(Inverted(Table()), IsLatin, text);
  }

  /** A letter that is a whole value never survives into the result. */
  lemma ToCyrillicRemovesValues(text: string, i: nat)
    requires i < Count && |Table()[i].1| == 1
    ensures Table()[i].1[0] !in ToCyrillic(text)
  {
    TableShape();
    var c := Table()[i].1[0];
    assert IsLatin(c);
    assert Inverted(Table())[i].0 == [c];
    RemovesChar(Inverted(Table()), text, c, i);
  }

  /** The result holds no Latin letter that the text did not hold. */
  lemma ToCyrillicAddsNoLatin(text: string, c: char)
    requires IsLatin(c) && c !in text
    ensures c !in ToCyrillic(text)
  {
    TableShape();
    KeepsOut(Inverted(Table()), text, c);
  }

  /** A character that occurs in no value is kept. */
  lemma ToCyrillicKeepsUnvalued(text: string, c: char)
    requires c in text && forall i :: 0 <= i < Count ==> c !in Table()[i].1
    ensures c in ToCyrillic(text)
  {
    TableShape();
    KeepsIn(Inverted(Table()), text, c);
  }

  /** A character outside both alphabets, such as a space, splits the text into parts that
      FromTransliterationToCyrillic reads independently of each other. */
  lemma ToCyrillicAround(a: string, c: char, b: string)
    requires !IsLatin(c) && !IsCyrillic(c)
    ensures ToCyrillic(a + [c] + b) == ToCyrillic(a) + [c] + ToCyrillic(b)
  {
    TableShape();
    KeysCyrillic();
    ValuesLatin();
    ReplacePairsAround(a, c, b, Inverted(Table()));
  }

  /** Read backwards, "ye" is entry 4's value and its pass runs before those of "y" and "e":
      the four passes before it cannot take up any part of a "ye", so every text holding "ye"
      comes back with a "є". */
  lemma YeComesBack(a: string, b: string)
    ensures 'є' in ToCyrillic(a + "ye" + b)
  {
    var s := a + "ye" + b;
    assert s[|a|..][..2] == "ye";
    OrdinalStartsWith(s[|a|..], "ye");
    ContainsAt(s, "ye", Ordinal, |a|);
    TableShape();
    EarlyValuesApart();
    LaterValuesLatin();
    PairComesBack(Inverted(Table()), s, 4, 'є');
  }

  /** None of the values "shch", "Shch", "yo" and "Yo" of entries 0 to 3 can overlap a "ye",
      which entry 4 turns into "є". */
  lemma EarlyValuesApart()
    ensures Inverted(Table())[4] == ("ye", "є")
    ensures forall i :: 0 <= i < 4 ==> Apart(Inverted(Table())[i].0, Inverted(Table())[4].0)
  {
    var t := Inverted(Table());
    assert t[0].0 == "shch" && t[1].0 == "Shch" && t[2].0 == "yo" && t[3].0 == "Yo" && t[4] == ("ye", "є");
    DisjointApart("shch", "ye");
    DisjointApart("Shch", "ye");
    YoApart("yo");
    YoApart("Yo");
  }

  /** No value after entry 4 holds the Cyrillic "є". */
  lemma LaterValuesLatin()
    ensures forall i :: 4 < i < |Inverted(Table())| ==> 'є' !in Inverted(Table())[i].0
  {
    ValuesLatin();
    assert !IsLatin('є');
  }

  lemma YoApart(pat: string)
    requires pat == "yo" || pat == "Yo"
    ensures Apart(pat, "ye")
  {
    var q := "ye";
    forall d | -|pat| < d < |q| ensures !Agree(pat, q, d) {
      var k := if d == 1 then 1 else if d == -1 then 0 else if pat == "yo" then 1 else 0;
      assert q[k] != pat[k - d];
    }
  }

  lemma BackwardDead22(text: string)
    ensures ReplaceAll(ReplacePairs(text, Inverted(Table())[..22]), Inverted(Table())[22].0, Inverted(Table())[22].1, Ordinal)
            == ReplacePairs(text, Inverted(Table())[..22])
  {
    TableShape();
    DeadAfterSamePattern(Inverted(Table()), text, 21, 22);
  }

  lemma BackwardDead26(text: string)
    ensures ReplaceAll(ReplacePairs(text, Inverted(Table())[..26]), Inverted(Table())[26].0, Inverted(Table())[26].1, Ordinal)
            == ReplacePairs(text, Inverted(Table())[..26])
  {
    TableShape();
    DeadAfterCharRemoved(Inverted(Table()), text, 25, 26);
  }

  lemma BackwardDead33(text: string)
    ensures ReplaceAll(ReplacePairs(text, Inverted(Table())[..33]), Inverted(Table())[33].0, Inverted(Table())[33].1, Ordinal)
            == ReplacePairs(text, Inverted(Table())[..33])
  {
    TableShape();
    DeadAfterCharRemoved(Inverted(Table()), text, 31, 33);
  }

  lemma BackwardDead34(text: string)
    ensures ReplaceAll(ReplacePairs(text, Inverted(Table())[..34]), Inverted(Table())[34].0, Inverted(Table())[34].1, Ordinal)
            == ReplacePairs(text, Inverted(Table())[..34])
  {
    TableShape();
    DeadAfterCharRemoved(Inverted(Table()), text, 32, 34);
  }

  lemma BackwardDead37(text: string)
    ensures ReplaceAll(ReplacePairs(text, Inverted(Table())[..37]), Inverted(Table())[37].0, Inverted(Table())[37].1, Ordinal)
            == ReplacePairs(text, Inverted(Table())[..37])
  {
    TableShape();
    DeadAfterCharRemoved(Inverted(Table()), text, 9, 37);
  }

  lemma BackwardDead38(text: string)
    ensures ReplaceAll(ReplacePairs(text, Inverted(Table())[..38]), Inverted(Table())[38].0, Inverted(Table())[38].1, Ordinal)
            == ReplacePairs(text, Inverted(Table())[..38])
  {
    TableShape();
    DeadAfterCharRemoved(Inverted(Table()), text, 10, 38);
  }

  lemma BackwardDead67(text: string)
    ensures ReplaceAll(ReplacePairs(text, Inverted(Table())[..67]), Inverted(Table())[67].0, Inverted(Table())[67].1, Ordinal)
            == ReplacePairs(text, Inverted(Table())[..67])
  {
    TableShape();
    DeadAfterCharRemoved(Inverted(Table()), text, 41, 67);
  }

  lemma BackwardDead68(text: string)
    ensures ReplaceAll(ReplacePairs(text, Inverted(Table())[..68]), Inverted(Table())[68].0, Inverted(Table())[68].1, Ordinal)
            == ReplacePairs(text, Inverted(Table())[..68])
  {
    TableShape();
    DeadAfterCharRemoved(Inverted(Table()), text, 42, 68);
  }

  lemma BackwardDead71(text: string)
    ensures ReplaceAll(ReplacePairs(text, Inverted(Table())[..71]), Inverted(Table())[71].0, Inverted(Table())[71].1, Ordinal)
            == ReplacePairs(text, Inverted(Table())[..71])
  {
    TableShape();
    DeadAfterCharRemoved(Inverted(Table()), text, 43, 71);
  }

  lemma BackwardDead72(text: string)
    ensures ReplaceAll(ReplacePairs(text, Inverted(Table())[..72]), Inverted(Table())[72].0, Inverted(Table())[72].1, Ordinal)
            == ReplacePairs(text, Inverted(Table())[..72])
  {
    TableShape();
    DeadAfterCharRemoved(Inverted(Table()), text, 44, 72);
  }

  /** The entries whose values an earlier entry already consumed, by the same value or by a one-letter value inside it: by the time the backward loop reaches them their Replace finds nothing. */
  lemma BackwardDeadEntries(text: string, k: nat)
    requires k in {22, 26, 33, 34, 37, 38, 67, 68, 71, 72}
    ensures ReplaceAll(ReplacePairs(text, Inverted(Table())[..k]), Inverted(Table())[k].0, Inverted(Table())[k].1, Ordinal)
            == ReplacePairs(text, Inverted(Table())[..k])
  {
    if k == 22 { BackwardDead22(text); } else if k == 26 { BackwardDead26(text); } else if k == 33 { BackwardDead33(text); } else if k == 34 { BackwardDead34(text); } else if k == 37 { BackwardDead37(text); } else if k == 38 { BackwardDead38(text); } else if k == 67 { BackwardDead67(text); } else if k == 68 { BackwardDead68(text); } else if k == 71 { BackwardDead71(text); } else { BackwardDead72(text); }
  }

  /** Text whose letters each come back from their own spelling, and whose spelling holds no
      value longer than one letter, survives the trip to Latin and back. */
  lemma RoundTrip(text: string)
    requires forall k :: 0 <= k < |text| ==> Transcribe(CyrillicLetter, LatinLetter(text[k])) == [text[k]]
    requires NoLongValue(0, ToLatin(text))
    ensures ToCyrillic(ToLatin(text)) == text
  {
    ToLatinSpells(text);
    ToCyrillicSpells(ToLatin(text));
    TranscribeTwice(LatinLetter, CyrillicLetter, text);
  }
}
