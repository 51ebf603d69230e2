/** Automatic corpus aliases: the largest numbered alias in use, and the next one. */
module Aliases {
  import opened Decimal

  const MAX_I64: nat := 0x7FFF_FFFF_FFFF_FFFF
  const STEM := "corpus-"

  /** `alias GLOB 'corpus-[0-9]*'`. */
  predicate Numbered(alias: string) {
    STEM <= alias && |alias| > 7 && IsDigit(alias[7])
  }

  /** `CAST(SUBSTR(alias, 8) AS INTEGER)`: the leading digits, clamped to 64 bits. */
  function Suffix(alias: string): (n: nat)
    requires Numbered(alias)
    ensures n <= MAX_I64
  {
    var rest := alias[7..];
    var v := Value(rest[..DigitPrefix(rest)]);
    if v > MAX_I64 then MAX_I64 else v
  }

  /** `COALESCE(MAX(...), 0)` over the numbered aliases. */
  ghost predicate IsMaxSuffix(aliases: set<string>, m: nat) {
    && (forall a | a in aliases && Numbered(a) :: Suffix(a) <= m)
    && (m == 0 || exists a :: a in aliases && Numbered(a) && Suffix(a) == m)
  }

  lemma {:induction false} MaxSuffixExists(aliases: set<string>) returns (m: nat)
    ensures IsMaxSuffix(aliases, m)
    decreases aliases
  {
    if aliases == {} {
      m := 0;
    } else {
      var a :| a in aliases;
      var k := MaxSuffixExists(aliases - {a});
      m := if Numbered(a) && Suffix(a) > k then Suffix(a) else k;
      forall b | b in aliases && Numbered(b)
        ensures Suffix(b) <= m
      {
        assert b == a || b in aliases - {a};
      }
    }
  }

  ghost function MaxSuffix(aliases: set<string>): (m: nat)
    ensures m <= MAX_I64
  {
    assert exists m: nat :: IsMaxSuffix(aliases, m) by {
      var m := MaxSuffixExists(aliases);
    }
    var m: nat :| IsMaxSuffix(aliases, m);
    m
  }

  /** The alias whose number is one past the 64-bit maximum: the addition wraps. */
  const WRAPPED := "corpus--9223372036854775808"

  /** `format!("corpus-{:02}", next + 1)`. */
  function NextAlias(m: nat): string
    requires m <= MAX_I64
  {
    if m == MAX_I64 then WRAPPED else STEM + Print2(m + 1)
  }

  lemma NextAliasNumbered(m: nat)
    requires m < MAX_I64
    ensures Numbered(NextAlias(m)) && Suffix(NextAlias(m)) == m + 1
  {
    var digits := Print2(m + 1);
    PrintIsDigits(m + 1);
    var a := NextAlias(m);
    assert a[7..] == digits;
    assert digits[..|digits|] == digits;
    PrintRoundTrip(m + 1);
  }

  /** The aliases that count are those with a digit after the stem. */
  lemma NumberedIff(alias: string)
    ensures Numbered(alias) <==> exists digit: char, rest: string :: IsDigit(digit) && alias == "corpus-" + [digit] + rest
  {
    if Numbered(alias) {
      assert alias == "corpus-" + [alias[7]] + alias[8..];
    }
  }

  /** Their number is the one that the digits after the stem write, up to the 64-bit maximum;
      what follows the digits does not matter. */
  lemma SuffixReads(n: nat, rest: string)
    requires rest == "" || !IsDigit(rest[0])
    ensures Numbered("corpus-" + Print(n) + rest)
    ensures Suffix("corpus-" + Print(n) + rest) == if n <= MAX_I64 then n else MAX_I64
  {
    var alias, digits := "corpus-" + Print(n) + rest, Print(n);
    PrintIsDigits(n);
    assert alias[7..] == digits + rest;
    DigitPrefixIs(digits, rest);
    assert (digits + rest)[..|digits|] == digits;
    PrintRoundTrip(n);
  }

  lemma WrappedNotNumbered()
    ensures !Numbered(WRAPPED)
  {
    assert WRAPPED[7] == '-';
  }

  /** The next alias is unused, whatever aliases users have chosen, unless the largest
      number is the 64-bit maximum and the wrapped alias is already taken. */
  lemma NextAliasIsFresh(aliases: set<string>)
    ensures NextAlias(MaxSuffix(aliases)) in aliases <==> MaxSuffix(aliases) == MAX_I64 && WRAPPED in aliases
  {
    var m := MaxSuffix(aliases);
    if m < MAX_I64 {
      NextAliasNumbered(m);
    }
  }

  /** Taking the next alias moves the maximum up by one. */
  lemma NextAliasIsNewMax(aliases: set<string>)
    requires MaxSuffix(aliases) < MAX_I64
    ensures var m := MaxSuffix(aliases); MaxSuffix(aliases + {NextAlias(m)}) == m + 1
  {
    var m := MaxSuffix(aliases);
    NextAliasNumbered(m);
    assert NextAlias(m) in aliases + {NextAlias(m)};
  }

  /** How many more automatic aliases there are: the numbers above the largest in use, then
      the wrapped one if it is free. */
  ghost function Room(aliases: set<string>): nat {
    MAX_I64 - MaxSuffix(aliases) + if WRAPPED in aliases then 0 else 1
  }

  /** While there is room the next alias is unused, and taking it uses up one place. */
  lemma TakingUsesRoom(aliases: set<string>)
    requires Room(aliases) > 0
    ensures var m := MaxSuffix(aliases);
      var taken := aliases + {NextAlias(m)};
      && NextAlias(m) !in aliases && Room(taken) == Room(aliases) - 1
      && MaxSuffix(taken) == if m < MAX_I64 then m + 1 else m
  {
    var m := MaxSuffix(aliases);
    NextAliasIsFresh(aliases);
    WrappedNotNumbered();
    if m < MAX_I64 {
      NextAliasNumbered(m);
      NextAliasIsNewMax(aliases);
    } else {
    }
  }
}
