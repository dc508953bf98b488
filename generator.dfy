/** `generate_password`: build a character pool from two flags, then pick
    one pool character per iteration of `range(length)`.

    The process-wide random generator is replaced by an explicit sequence of
    draws: the i-th call of `random.choice` is given draw `draws[i]`. */
module Generator {
  import opened Wrappers
  import opened Charsets

  /** What `random.choice` raises (as an IndexError) on an empty sequence */
  const EmptyChoiceMessage: string := "Cannot choose from an empty sequence"

  /** The character pool: letters, then digits if requested, then the
      special characters if requested. */
  function Pool(includeNumbers: bool, includeSpecialChars: bool): (pool: string)
    ensures |pool| == 52 + (if includeNumbers then 10 else 0) + (if includeSpecialChars then 26 else 0)
    ensures pool[..52] == AsciiLetters
    ensures includeNumbers ==> pool[52..62] == Digits
    ensures includeSpecialChars ==> pool[|pool| - 26..] == Specials
  {
    LettersLayout();
    SpecialsAreSymbols();
    var characters := AsciiLetters;
    var characters := if includeNumbers then characters + Digits else characters;
    if includeSpecialChars then characters + Specials else characters
  }

  /** The number of iterations of `range(n)`: none when n is zero or negative */
  function RangeLength(n: int): nat {
    if n <= 0 then 0 else n
  }

  /** `random.choice(pool)` fed with one draw. The draw is reduced into the
      pool's index range; it raises on an empty pool. */
  function Choice(pool: string, draw: nat): (r: Result<char>)
    ensures r.Err? <==> |pool| == 0
    ensures r.Err? ==> r.error == EmptyChoiceMessage
    ensures r.Ok? ==> r.value in pool
    ensures draw < |pool| ==> r == Ok(pool[draw])
  {
    if |pool| == 0 then Err(EmptyChoiceMessage) else Ok(pool[draw % |pool|])
  }

  /** `''.join(random.choice(pool) for each draw)`, left to right; the first
      raising choice aborts the join. */
  function Draw(pool: string, draws: seq<nat>): (r: Result<string>)
    ensures r.Err? <==> |pool| == 0 && |draws| > 0
    ensures r.Err? ==> r.error == EmptyChoiceMessage
    ensures r.Ok? ==> |r.value| == |draws|
    ensures r.Ok? ==> forall i :: 0 <= i < |draws| ==> Choice(pool, draws[i]) == Ok(r.value[i])
  {
    if draws == [] then Ok("")
    else
      match Choice(pool, draws[0])
      case Err(e) => Err(e)
      case Ok(c) =>
        match Draw(pool, draws[1..])
        case Err(e) => Err(e)
        case Ok(rest) => Ok([c] + rest)
  }

  /** `generate_password(length, include_numbers, include_special_chars)`.
      Only the first `length` draws are consumed. */
  function GeneratePassword(length: int, includeNumbers: bool, includeSpecialChars: bool, draws: seq<nat>): (r: Result<string>)
    requires length <= |draws|
    ensures r.Ok?
    ensures length >= 0 ==> |r.value| == length
    ensures length < 0 ==> r.value == ""
    ensures forall i :: 0 <= i < |r.value| ==> r.value[i] in Pool(includeNumbers, includeSpecialChars)
    ensures forall i :: 0 <= i < |r.value| && draws[i] < |Pool(includeNumbers, includeSpecialChars)| ==>
              r.value[i] == Pool(includeNumbers, includeSpecialChars)[draws[i]]
  {
    var characters := Pool(includeNumbers, includeSpecialChars);
    Draw(characters, draws[..RangeLength(length)])
  }

  /** A character is in the pool exactly when it is a letter, a digit with
      numbers enabled, or one of the specials with special characters enabled. */
  lemma PoolMembership(includeNumbers: bool, includeSpecialChars: bool, c: char)
    ensures c in Pool(includeNumbers, includeSpecialChars) <==>
              IsAsciiLetter(c) || (includeNumbers && IsAsciiDigit(c)) || (includeSpecialChars && c in Specials)
  {
    LettersMembership(c);
    DigitsMembership(c);
    var pool := Pool(includeNumbers, includeSpecialChars);
    var digits := if includeNumbers then Digits else "";
    var specials := if includeSpecialChars then Specials else "";
    assert pool == AsciiLetters + digits + specials;
    assert c in pool <==> c in AsciiLetters || c in digits || c in specials;
  }

  /** With both flags off the pool is exactly `string.ascii_letters` */
  lemma LettersOnlyPool()
    ensures Pool(false, false) == AsciiLetters
    ensures |Pool(false, false)| == 52
  {
  }

  /** The pool is never empty, and no character occurs in it twice */
  lemma PoolDistinct(includeNumbers: bool, includeSpecialChars: bool)
    ensures |Pool(includeNumbers, includeSpecialChars)| >= 52
    ensures Distinct(Pool(includeNumbers, includeSpecialChars))
  {
    var digits := if includeNumbers then Digits else "";
    var specials := if includeSpecialChars then Specials else "";
    assert Pool(includeNumbers, includeSpecialChars) == AsciiLetters + digits + specials;
    SetsDistinct();
    SetsDisjoint();
    DistinctConcat(AsciiLetters, digits);
    DistinctConcat(AsciiLetters + digits, specials);
  }

  /** Every generated character is a letter, a digit only when numbers were
      requested, or a special character only when those were requested. */
  lemma GeneratedCharacterClasses(length: int, includeNumbers: bool, includeSpecialChars: bool, draws: seq<nat>)
    requires length <= |draws|
    ensures var password := GeneratePassword(length, includeNumbers, includeSpecialChars, draws).value;
      forall i :: 0 <= i < |password| ==>
        IsAsciiLetter(password[i]) || (includeNumbers && IsAsciiDigit(password[i])) || (includeSpecialChars && password[i] in Specials)
    ensures var password := GeneratePassword(length, includeNumbers, includeSpecialChars, draws).value;
      !includeNumbers ==> forall i :: 0 <= i < |password| ==> !IsAsciiDigit(password[i])
    ensures var password := GeneratePassword(length, includeNumbers, includeSpecialChars, draws).value;
      !includeSpecialChars ==> forall i :: 0 <= i < |password| ==> password[i] !in Specials
  {
    var password := GeneratePassword(length, includeNumbers, includeSpecialChars, draws).value;
    SpecialsAreSymbols();
    forall i | 0 <= i < |password|
      ensures IsAsciiLetter(password[i]) || (includeNumbers && IsAsciiDigit(password[i])) || (includeSpecialChars && password[i] in Specials)
      ensures !includeNumbers ==> !IsAsciiDigit(password[i])
      ensures !includeSpecialChars ==> password[i] !in Specials
    {
      PoolMembership(includeNumbers, includeSpecialChars, password[i]);
    }
  }

  /** The password depends only on the draws it consumes: two runs that agree
      on the first `length` draws produce the same password. */
  lemma DeterminedByConsumedDraws(length: int, includeNumbers: bool, includeSpecialChars: bool, draws1: seq<nat>, draws2: seq<nat>)
    requires length <= |draws1| && length <= |draws2|
    requires draws1[..RangeLength(length)] == draws2[..RangeLength(length)]
    ensures GeneratePassword(length, includeNumbers, includeSpecialChars, draws1) ==
            GeneratePassword(length, includeNumbers, includeSpecialChars, draws2)
  {
  }

  /** Draws are consumed in order: asking for fewer characters from the same
      draws gives a prefix of the longer password. */
  lemma ShorterIsPrefix(shorter: int, length: int, includeNumbers: bool, includeSpecialChars: bool, draws: seq<nat>)
    requires 0 <= shorter <= length <= |draws|
    ensures GeneratePassword(shorter, includeNumbers, includeSpecialChars, draws).value ==
            GeneratePassword(length, includeNumbers, includeSpecialChars, draws).value[..shorter]
  {
    var pool := Pool(includeNumbers, includeSpecialChars);
    var short := GeneratePassword(shorter, includeNumbers, includeSpecialChars, draws).value;
    var long := GeneratePassword(length, includeNumbers, includeSpecialChars, draws).value;
    assert Draw(pool, draws[..shorter]) == Ok(short);
    assert Draw(pool, draws[..length]) == Ok(long);
    forall i | 0 <= i < shorter ensures short[i] == long[i] {
      assert draws[..shorter][i] == draws[..length][i];
    }
  }

  /** The position of the first occurrence of `c` in `s` */
  function IndexOf(s: string, c: char): (k: nat)
    requires c in s
    ensures k < |s| && s[k] == c
    ensures forall j :: 0 <= j < k ==> s[j] != c
  {
    if s[0] == c then 0 else 1 + IndexOf(s[1..], c)
  }

  /** Nothing in the pool is out of reach: for every length and every string
      of that length over the pool, some in-range draws produce it. */
  lemma EveryPasswordReachable(includeNumbers: bool, includeSpecialChars: bool, password: string)
    requires forall i :: 0 <= i < |password| ==> password[i] in Pool(includeNumbers, includeSpecialChars)
    ensures exists draws: seq<nat> ::
              |draws| == |password| &&
              (forall i :: 0 <= i < |draws| ==> draws[i] < |Pool(includeNumbers, includeSpecialChars)|) &&
              GeneratePassword(|password|, includeNumbers, includeSpecialChars, draws) == Ok(password)
  {
    var pool := Pool(includeNumbers, includeSpecialChars);
    var draws: seq<nat> := seq(|password|, i requires 0 <= i < |password| => IndexOf(pool, password[i]));
    var r := GeneratePassword(|password|, includeNumbers, includeSpecialChars, draws);
    assert draws[..|password|] == draws;
    forall i | 0 <= i < |password| ensures r.value[i] == password[i] {
      assert draws[i] == IndexOf(pool, password[i]);
    }
    assert |r.value| == |password|;
    assert r.value == password;
  }
}
