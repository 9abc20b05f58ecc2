/** Named character classes, and the bit tables of bracket expressions with and without `-i`, in user/grep.c. */
module GrepClasses {
  import opened Bytes
  import opened GrepMatch
  import opened GrepCompile

  // ----- named classes -----

  predicate Letter(c: Byte) { 'A' as int <= c <= 'Z' as int || 'a' as int <= c <= 'z' as int }
  predicate DecimalDigit(c: Byte) { '0' as int <= c <= '9' as int }
  predicate Punctuation(c: Byte) { 33 <= c <= 47 || 58 <= c <= 64 || 91 <= c <= 96 || 123 <= c <= 126 }
  predicate Visible(c: Byte) { Letter(c) || DecimalDigit(c) || Punctuation(c) }

  /**
   The character classes of the C locale, related to each other as POSIX (XBD
   section 7.3.1) has it: letters, digits and punctuation make up what is
   visible, that and the space what prints, and the rest of ASCII is control.
   */
  predicate InClass(cl: CharClass, c: Byte) {
    match cl
    case Upper => 'A' as int <= c <= 'Z' as int
    case Lower => 'a' as int <= c <= 'z' as int
    case Alpha => Letter(c)
    case Digits => DecimalDigit(c)
    case Alnum => Letter(c) || DecimalDigit(c)
    case Punct => Punctuation(c)
    case Graph => Visible(c)
    case Printing => Visible(c) || c == ' ' as int
    case Cntrl => c < 128 && !Visible(c) && c != ' ' as int
    case Blank => c == ' ' as int || c == '\t' as int
    case Space => c == ' ' as int || '\t' as int <= c <= '\r' as int
    case XDigits => DecimalDigit(c) || 'A' as int <= c <= 'F' as int || 'a' as int <= c <= 'f' as int
  }

  /** `c` is in the class called `name`; no class has an unknown name. */
  ghost predicate InNamed(name: seq<Byte>, c: Byte) { exists cl :: ClassName(cl) == name && InClass(cl, c) }

  /** The first and the third letter tell the names apart. */
  function Initials(cl: CharClass): (char, char) {
    match cl
    case Alnum => ('a', 'n') case Alpha => ('a', 'p') case Blank => ('b', 'a')
    case Cntrl => ('c', 't') case Digits => ('d', 'g') case Graph => ('g', 'a')
    case Lower => ('l', 'w') case Printing => ('p', 'i') case Punct => ('p', 'n')
    case Space => ('s', 'a') case Upper => ('u', 'p') case XDigits => ('x', 'i')
  }

  lemma {:induction false} NameInitials(cl: CharClass, name: seq<Byte>)
    requires name == ClassName(cl)
    ensures |name| > 2 && (Initials(cl).0 as int, Initials(cl).1 as int) == (name[0], name[2])
  {}

  lemma {:induction false} NamesDiffer(a: CharClass, b: CharClass)
    requires ClassName(a) == ClassName(b)
    ensures a == b
  {
    NameInitials(a, ClassName(a));
    NameInitials(b, ClassName(b));
  }

  /** The tests of `<ctype.h>` are the classes of POSIX. */
  lemma {:induction false} CTypeMeaning(cl: CharClass, c: Byte)
    ensures CType(cl, c) <==> InClass(cl, c)
  {}

  /** Each of the twelve names selects the bytes POSIX gives it, and no other name selects any. */
  lemma {:induction false} NamedMeaning(name: seq<Byte>, c: Byte)
    ensures InPosixClass(name, c) <==> InNamed(name, c)
  {
    if InPosixClass(name, c) { CTypeMeaning(ClassOf(name).value, c); }
    if InNamed(name, c) {
      var cl :| ClassName(cl) == name && InClass(cl, c);
      NamesDiffer(cl, ClassOf(name).value);
      CTypeMeaning(cl, c);
    }
  }

  // ----- bit tables -----

  lemma {:induction false} ClassSetTest(bits: Bits, c: Byte, d: Byte)
    ensures ClassTest(ClassSet(bits, c), d) <==> c == d || ClassTest(bits, d)
  {
    if c / 8 == d / 8 {
      BitSetTest(bits[c / 8], c % 8, d % 8);
    }
  }

  lemma {:induction false} BitSetTest(b: bv8, i: nat, j: nat)
    requires i < 8 && j < 8
    ensures ((b | ((1 as bv8) << i)) >> j) & 1 == 1 <==> i == j || (b >> j) & 1 == 1
  {
    if i == 0 { } else if i == 1 { } else if i == 2 { } else if i == 3 { }
    else if i == 4 { } else if i == 5 { } else if i == 6 { } else { }
    if j == 0 { } else if j == 1 { } else if j == 2 { } else if j == 3 { }
    else if j == 4 { } else if j == 5 { } else if j == 6 { } else { }
  }

  /** A letter in its other case; any other byte as it is. */
  function OtherCase(c: Byte): Byte { if IsLower(c) then c - 32 else if IsUpper(c) then c + 32 else c }

  lemma {:induction false} SetFoldTest(bits: Bits, c: Byte, d: Byte, icase: bool)
    ensures ClassTest(SetFold(bits, c, icase), d) <==> c == d || (icase && c == OtherCase(d)) || ClassTest(bits, d)
  {
    ClassSetTest(bits, c, d);
    if icase && c != OtherCase(c) { ClassSetTest(ClassSet(bits, c), OtherCase(c), d); }
  }

  /** A range holds its bytes and, with `-i`, the other case of its letters. */
  lemma {:induction false} SetRangeTest(bits: Bits, lo: nat, hi: Byte, d: Byte, icase: bool)
    ensures ClassTest(SetRange(bits, lo, hi, icase), d)
       <==> lo <= d <= hi || (icase && lo <= OtherCase(d) <= hi) || ClassTest(bits, d)
    decreases hi + 1 - lo
  {
    if lo <= hi {
      SetFoldTest(bits, lo, d, icase);
      SetRangeTest(SetFold(bits, lo, icase), lo + 1, hi, d, icase);
    }
  }

  /** The table holds exactly the bytes of the class and those it held before. */
  lemma {:induction false} SetPosixTest(bits: Bits, name: seq<Byte>, c: nat, d: Byte)
    requires c <= 256
    ensures ClassTest(SetPosix(bits, name, c), d) <==> (c <= d && InPosixClass(name, d)) || ClassTest(bits, d)
    decreases 256 - c
  {
    if c < 256 {
      ClassSetTest(bits, c, d);
      SetPosixTest(if InPosixClass(name, c) then ClassSet(bits, c) else bits, name, c + 1, d);
    }
  }
}
