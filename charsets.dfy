/** The character sets the generator draws from: the constants of Python's
    `string` module that the generator uses, and its own literal set of
    26 special characters. */
module Charsets {

  /** `string.ascii_lowercase` */
  const AsciiLowercase: string := "abcdefghijklmnopqrstuvwxyz"

  /** `string.ascii_uppercase` */
  const AsciiUppercase: string := "ABCDEFGHIJKLMNOPQRSTUVWXYZ"

  /** `string.ascii_letters`: the lowercase letters, then the uppercase ones */
  const AsciiLetters: string := AsciiLowercase + AsciiUppercase

  /** `string.digits` */
  const Digits: string := "0123456789"

  /** The special characters the generator appends when asked to */
  const Specials: string := "!@#$%^&*()_+-=[]{}|;:,.<>?"

  /** Independent descriptions of the classes, by code point range */
  predicate IsAsciiLower(c: char) { 'a' <= c <= 'z' }
  predicate IsAsciiUpper(c: char) { 'A' <= c <= 'Z' }
  predicate IsAsciiLetter(c: char) { IsAsciiLower(c) || IsAsciiUpper(c) }
  predicate IsAsciiDigit(c: char) { '0' <= c <= '9' }

  /** No character occurs twice in `s` */
  predicate Distinct(s: string) {
    forall i, j :: 0 <= i < j < |s| ==> s[i] != s[j]
  }

  /** The k-th lowercase letter is 'a' + k */
  lemma LowercaseAt(k: int)
    requires 0 <= k < 26
    ensures AsciiLowercase[k] as int == 'a' as int + k
  {
  }

  /** The k-th uppercase letter is 'A' + k */
  lemma UppercaseAt(k: int)
    requires 0 <= k < 26
    ensures AsciiUppercase[k] as int == 'A' as int + k
  {
  }

  /** The k-th digit is '0' + k */
  lemma DigitAt(k: int)
    requires 0 <= k < 10
    ensures Digits[k] as int == '0' as int + k
  {
  }

  /** `string.ascii_letters` holds 52 characters, lowercase first */
  lemma LettersLayout()
    ensures |AsciiLetters| == 52
    ensures forall k :: 0 <= k < 26 ==> IsAsciiLower(AsciiLetters[k])
    ensures forall k :: 26 <= k < 52 ==> IsAsciiUpper(AsciiLetters[k])
  {
    forall k | 0 <= k < 26 ensures IsAsciiLower(AsciiLetters[k]) {
      LowercaseAt(k);
    }
    forall k | 26 <= k < 52 ensures IsAsciiUpper(AsciiLetters[k]) {
      UppercaseAt(k - 26);
    }
  }

  /** A character is in `string.ascii_letters` exactly when it is an ASCII letter */
  lemma LettersMembership(c: char)
    ensures c in AsciiLetters <==> IsAsciiLetter(c)
  {
    if IsAsciiLower(c) {
      var k := c as int - 'a' as int;
      LowercaseAt(k);
      assert AsciiLetters[k] == c;
    } else if IsAsciiUpper(c) {
      var k := c as int - 'A' as int;
      UppercaseAt(k);
      assert AsciiLetters[26 + k] == c;
    }
    if c in AsciiLetters {
      var k :| 0 <= k < 52 && AsciiLetters[k] == c;
      LettersLayout();
    }
  }

  /** A character is in `string.digits` exactly when it is an ASCII digit */
  lemma DigitsMembership(c: char)
    ensures c in Digits <==> IsAsciiDigit(c)
  {
    if IsAsciiDigit(c) {
      var k := c as int - '0' as int;
      DigitAt(k);
      assert Digits[k] == c;
    }
    if c in Digits {
      var k :| 0 <= k < 10 && Digits[k] == c;
      DigitAt(k);
    }
  }

  /** The special set has 26 characters, none of them a letter or a digit */
  lemma SpecialsAreSymbols()
    ensures |Specials| == 26
    ensures forall c :: c in Specials ==> !IsAsciiLetter(c) && !IsAsciiDigit(c)
  {
    forall c | c in Specials ensures !IsAsciiLetter(c) && !IsAsciiDigit(c) {
      var k :| 0 <= k < 26 && Specials[k] == c;
    }
  }

  /** Each of the three sets lists every character once */
  lemma SetsDistinct()
    ensures Distinct(AsciiLetters)
    ensures Distinct(Digits)
    ensures Distinct(Specials)
  {
    LettersLayout();
    forall i, j | 0 <= i < j < 52 ensures AsciiLetters[i] != AsciiLetters[j] {
      if j < 26 {
        LowercaseAt(i);
        LowercaseAt(j);
      } else if 26 <= i {
        UppercaseAt(i - 26);
        UppercaseAt(j - 26);
      }
    }
    forall i, j | 0 <= i < j < 10 ensures Digits[i] != Digits[j] {
      DigitAt(i);
      DigitAt(j);
    }
  }

  /** No character is in two of the three sets */
  lemma SetsDisjoint()
    ensures forall c :: c in Digits ==> c !in AsciiLetters
    ensures forall c :: c in Specials ==> c !in AsciiLetters && c !in Digits
  {
    SpecialsAreSymbols();
    forall c | c in Digits ensures c !in AsciiLetters {
      DigitsMembership(c);
      LettersMembership(c);
    }
    forall c | c in Specials ensures c !in AsciiLetters && c !in Digits {
      DigitsMembership(c);
      LettersMembership(c);
    }
  }

  /** Joining two duplicate-free strings with no character in common gives
      a duplicate-free string */
  lemma DistinctConcat(a: string, b: string)
    requires Distinct(a) && Distinct(b)
    requires forall c :: c in b ==> c !in a
    ensures Distinct(a + b)
  {
    var s := a + b;
    forall i, j | 0 <= i < j < |s| ensures s[i] != s[j] {
      if j >= |a| {
        assert s[j] == b[j - |a|];
        if i < |a| {
          assert s[j] in b && s[i] == a[i];
        } else {
          assert s[i] == b[i - |a|];
        }
      }
    }
  }
}
