/**
  Stock-code normalisation of the PE percentile lookup service.

  Two spellings of a Chinese A-share code are accepted:
    - the exchange-suffix (Tushare) spelling `600739.SH`, marker in any letter case;
    - the exchange-prefix spelling `sh600739`, marker in any letter case;
  and both are rewritten to the canonical lower-case prefix spelling `sh600739`
  used as the key of the `stocks` table. Anything else is rejected with `None`.

  The two accepted shapes are regular expressions matched with `re.match` and
  `re.IGNORECASE`; their `$` also matches just before one final newline, which
  the model keeps: the prefix branch returns that newline (it lower-cases the
  whole input) while the suffix branch rebuilds the code from its groups and
  drops it. Characters are restricted to ASCII: `\d` is '0'..'9' and case
  folding is ASCII case folding.
*/
module StockCode {
  import opened Wrappers

  // ---------------------------------------------------------------------------
  // Characters

  /** `\d`, restricted to the ASCII digits. */
  predicate IsDigit(c: char) {
    '0' <= c <= '9'
  }

  predicate IsDigits(s: string) {
    forall i | 0 <= i < |s| :: IsDigit(s[i])
  }

  /** ASCII lower-casing, what `str.lower()` does on the characters the patterns admit. */
  function LowerChar(c: char): char {
    if 'A' <= c <= 'Z' then (c as int + 32) as char else c
  }

  /** `str.lower()` on ASCII text: every character lower-cased, nothing else changed. */
  function Lower(s: string): (r: string)
    ensures |r| == |s|
    ensures forall i | 0 <= i < |s| :: r[i] == LowerChar(s[i])
  {
    if s == [] then [] else [LowerChar(s[0])] + Lower(s[1..])
  }

  /** Two texts that `re.IGNORECASE` cannot tell apart. */
  predicate SameUpToCase(s: string, t: string) {
    |s| == |t| && forall i | 0 <= i < |s| :: LowerChar(s[i]) == LowerChar(t[i])
  }

  // ---------------------------------------------------------------------------
  // The two patterns of server.py:51 and server.py:56

  /** The group `(SH|SZ)` (equally `(sh|sz)`) matched with `re.IGNORECASE`. */
  predicate IsMarker(m: string) {
    |m| == 2 && LowerChar(m[0]) == 's' && (LowerChar(m[1]) == 'h' || LowerChar(m[1]) == 'z')
  }

  /** Python's `$` without MULTILINE at position `i`: the end of the text, or just before a final newline. */
  predicate EndAnchor(s: string, i: nat) {
    i == |s| || (i + 1 == |s| && s[i] == '\n')
  }

  /** `^(\d{6})\.(SH|SZ)$` under `re.IGNORECASE`. */
  predicate MatchesSuffixPattern(s: string) {
    9 <= |s| && IsDigits(s[..6]) && s[6] == '.' && IsMarker(s[7..9]) && EndAnchor(s, 9)
  }

  /** `^(sh|sz)\d{6}$` under `re.IGNORECASE`. */
  predicate MatchesPrefixPattern(s: string) {
    8 <= |s| && IsMarker(s[..2]) && IsDigits(s[2..8]) && EndAnchor(s, 8)
  }

  /** The canonical spelling: `sh` or `sz` followed by six ASCII digits, eight characters in all. */
  predicate IsCanonical(c: string) {
    |c| == 8 && c[0] == 's' && (c[1] == 'h' || c[1] == 'z') && IsDigits(c[2..])
  }

  /**
    normalize_stock_code: the suffix pattern is tried first and rebuilt from its
    groups as `market.lower() + digits`; otherwise the prefix pattern returns the
    whole input lower-cased; otherwise `None`. Total: every input yields a value.
    Every accepted result is a canonical code, followed by the newline that the
    prefix pattern's `$` lets through; without a final newline in the input it is
    exactly a canonical code.
  */
  function Normalize(code: string): (r: Option<string>)
    ensures r.Some? ==> 8 <= |r.value| <= 9 && IsCanonical(r.value[..8]) && (|r.value| == 9 ==> r.value[8] == '\n')
    ensures r.Some? && (code == [] || code[|code| - 1] != '\n') ==> IsCanonical(r.value)
  {
    if MatchesSuffixPattern(code) then
      var digits, market := code[..6], code[7..9];
      Some(Lower(market) + digits)
    else if MatchesPrefixPattern(code) then
      assert forall i | 2 <= i < 8 :: code[2..8][i - 2] == code[i];
      Some(Lower(code))
    else
      None
  }

  // ---------------------------------------------------------------------------
  // An independent description of the accepted inputs: a code and its spellings

  datatype Market = Sh | Sz

  /** A stock code: an exchange and a six-digit body. */
  datatype Code = Code(market: Market, body: string)

  predicate Valid(k: Code) {
    |k.body| == 6 && IsDigits(k.body)
  }

  function MarketLetter(m: Market): char {
    match m
    case Sh => 'h'
    case Sz => 'z'
  }

  /** The canonical key of a code, e.g. `sz000603`. */
  function Canonical(k: Code): string {
    ['s', MarketLetter(k.market)] + k.body
  }

  /** `marker` spells the exchange `m` in some letter case: "sh", "SH", "Sh" or "sH" for Sh. */
  predicate SpellsMarket(marker: string, m: Market) {
    |marker| == 2 && LowerChar(marker[0]) == 's' && LowerChar(marker[1]) == MarketLetter(m)
  }

  /** `s` is the suffix spelling of `k` with marker `marker`, optionally followed by one newline. */
  predicate SuffixSpelling(s: string, k: Code, marker: string) {
    s == k.body + "." + marker || s == k.body + "." + marker + "\n"
  }

  /** `s` is the prefix spelling of `k` with marker `marker`, optionally followed by one newline. */
  predicate PrefixSpelling(s: string, k: Code, marker: string) {
    s == marker + k.body || s == marker + k.body + "\n"
  }

  // ---------------------------------------------------------------------------
  // Properties

  lemma LowerIdempotent(s: string)
    ensures Lower(Lower(s)) == Lower(s)
  {
  }

  /** A suffix spelling, marker in any case, with or without a final newline, normalises to the canonical key. */
  lemma SuffixSpellingNormalizes(s: string, k: Code, marker: string)
    requires Valid(k) && SpellsMarket(marker, k.market) && SuffixSpelling(s, k, marker)
    ensures Normalize(s) == Some(Canonical(k))
  {
    assert s[..6] == k.body;
    assert s[6] == '.';
    assert s[7..9] == marker;
    assert MatchesSuffixPattern(s);
    assert Lower(marker) == ['s', MarketLetter(k.market)];
  }

  /**
    A prefix spelling, marker in any case, normalises to the input lower-cased:
    the canonical key, plus the final newline when there is one.
  */
  lemma PrefixSpellingNormalizes(s: string, k: Code, marker: string)
    requires Valid(k) && SpellsMarket(marker, k.market) && PrefixSpelling(s, k, marker)
    ensures Normalize(s) == Some(Lower(s))
    ensures s == marker + k.body ==> Normalize(s) == Some(Canonical(k))
    ensures s == marker + k.body + "\n" ==> Normalize(s) == Some(Canonical(k) + "\n")
  {
    assert s[..2] == marker;
    assert s[2..8] == k.body;
    assert !MatchesSuffixPattern(s) by {
      assert !IsDigit(s[0]);
    }
    assert MatchesPrefixPattern(s);
    var l := Lower(s);
    assert l[..8] == Canonical(k) by {
      forall i | 0 <= i < 8 ensures l[i] == Canonical(k)[i] {
        if i >= 2 { assert s[i] == k.body[i - 2]; }
      }
    }
    if |s| == 9 {
      assert l == l[..8] + [l[8]];
    } else {
      assert l == l[..8];
    }
  }

  /** Nothing but the spellings above is accepted: every other input yields `None`. */
  lemma NormalizeAcceptsOnlySpellings(s: string)
    requires Normalize(s).Some?
    ensures exists k, marker :: Valid(k) && SpellsMarket(marker, k.market)
                               && (SuffixSpelling(s, k, marker) || PrefixSpelling(s, k, marker))
  {
    if MatchesSuffixPattern(s) {
      var marker := s[7..9];
      var k := Code(if LowerChar(marker[1]) == 'h' then Sh else Sz, s[..6]);
      assert SpellsMarket(marker, k.market);
      if |s| == 9 {
        assert s == k.body + "." + marker;
      } else {
        assert s == k.body + "." + marker + "\n";
      }
      assert SuffixSpelling(s, k, marker);
    } else {
      var marker := s[..2];
      var k := Code(if LowerChar(marker[1]) == 'h' then Sh else Sz, s[2..8]);
      assert SpellsMarket(marker, k.market);
      if |s| == 8 {
        assert s == marker + k.body;
      } else {
        assert s == marker + k.body + "\n";
      }
      assert PrefixSpelling(s, k, marker);
    }
  }

  /** Both spellings of one code, each marker in any letter case, agree on the canonical key. */
  lemma SpellingsAgree(k: Code, suffixMarker: string, prefixMarker: string)
    requires Valid(k) && SpellsMarket(suffixMarker, k.market) && SpellsMarket(prefixMarker, k.market)
    ensures Normalize(k.body + "." + suffixMarker) == Normalize(prefixMarker + k.body) == Some(Canonical(k))
  {
    SuffixSpellingNormalizes(k.body + "." + suffixMarker, k, suffixMarker);
    PrefixSpellingNormalizes(prefixMarker + k.body, k, prefixMarker);
  }

  /** Normalisation is a fixed point on its own results, the newline-carrying ones included. */
  lemma NormalizeIdempotent(s: string)
    requires Normalize(s).Some?
    ensures Normalize(Normalize(s).value) == Normalize(s)
  {
    var c := Normalize(s).value;
    assert c[..2] == c[..8][..2];
    assert c[2..8] == c[..8][2..];
    assert !MatchesSuffixPattern(c) by {
      assert !IsDigit(c[0]);
    }
    assert MatchesPrefixPattern(c);
    LowerIdempotent(s);
    if MatchesSuffixPattern(s) {
      assert Lower(c) == c by {
        forall i | 0 <= i < |c| ensures LowerChar(c[i]) == c[i] {
          if i >= 2 { assert c[i] == c[2..][i - 2]; }
        }
      }
    }
  }

  lemma SameUpToCaseDigits(s: string, t: string, lo: nat, hi: nat)
    requires SameUpToCase(s, t) && lo <= hi <= |s|
    ensures IsDigits(s[lo..hi]) <==> IsDigits(t[lo..hi])
  {
    forall i | lo <= i < hi ensures IsDigit(s[i]) <==> IsDigit(t[i]) {
      assert LowerChar(s[i]) == LowerChar(t[i]);
    }
    assert forall i | 0 <= i < hi - lo :: s[lo..hi][i] == s[lo + i] && t[lo..hi][i] == t[lo + i];
  }

  /** Normalisation cannot tell apart two inputs that differ only in letter case. */
  lemma NormalizeIgnoresCase(s: string, t: string)
    requires SameUpToCase(s, t)
    ensures Normalize(s) == Normalize(t)
  {
    if |s| >= 8 {
      SameUpToCaseDigits(s, t, 2, 8);
      assert IsMarker(s[..2]) <==> IsMarker(t[..2]) by {
        assert LowerChar(s[0]) == LowerChar(t[0]) && LowerChar(s[1]) == LowerChar(t[1]);
      }
    }
    if |s| >= 9 {
      SameUpToCaseDigits(s, t, 0, 6);
      assert LowerChar(s[6]) == LowerChar(t[6]);
      assert s[6] == '.' <==> t[6] == '.';
      assert IsMarker(s[7..9]) <==> IsMarker(t[7..9]) by {
        assert LowerChar(s[7]) == LowerChar(t[7]) && LowerChar(s[8]) == LowerChar(t[8]);
      }
    }
    forall i | 0 <= i < |s| ensures s[i] == '\n' <==> t[i] == '\n' {
      assert LowerChar(s[i]) == LowerChar(t[i]);
    }
    if MatchesSuffixPattern(s) {
      assert s[..6] == t[..6] by {
        forall i | 0 <= i < 6 ensures s[i] == t[i] {
          assert IsDigit(s[..6][i]) && IsDigit(t[..6][i]);
          assert LowerChar(s[i]) == LowerChar(t[i]);
        }
      }
      assert Lower(s[7..9]) == Lower(t[7..9]) by {
        assert LowerChar(s[7]) == LowerChar(t[7]) && LowerChar(s[8]) == LowerChar(t[8]);
      }
    } else if MatchesPrefixPattern(s) {
      assert Lower(s) == Lower(t);
    }
  }

  /** The truthiness test of server.py:70 cannot see an empty string: accepted codes are never empty. */
  lemma NormalizeNeverEmpty(s: string)
    ensures Normalize(s) != Some("")
  {
  }

  // ---------------------------------------------------------------------------
  // Worked examples

  /** The usage guide's first pair: `sh600739` and `600739.SH` denote one key. */
  lemma UsageGuideSh600739()
    ensures Normalize("600739.SH") == Normalize("sh600739") == Some("sh600739")
  {
    var k := Code(Sh, "600739");
    assert Canonical(k) == "sh600739";
    assert k.body + "." + "SH" == "600739.SH";
    assert "sh" + k.body == "sh600739";
    SpellingsAgree(k, "SH", "sh");
  }

  /** The usage guide's second pair: `sz301011` and `301011.SZ` denote one key. */
  lemma UsageGuideSz301011()
    ensures Normalize("301011.SZ") == Normalize("sz301011") == Some("sz301011")
  {
    var k := Code(Sz, "301011");
    assert Canonical(k) == "sz301011";
    assert k.body + "." + "SZ" == "301011.SZ";
    assert "sz" + k.body == "sz301011";
    SpellingsAgree(k, "SZ", "sz");
  }

  /** The conversion named in the source's comment, with the marker in either case. */
  lemma SuffixExample000603()
    ensures Normalize("000603.SZ") == Normalize("000603.sz") == Some("sz000603")
  {
    var k := Code(Sz, "000603");
    assert Canonical(k) == "sz000603";
    assert k.body + "." + "SZ" == "000603.SZ";
    assert k.body + "." + "sz" == "000603.sz";
    SuffixSpellingNormalizes("000603.SZ", k, "SZ");
    SuffixSpellingNormalizes("000603.sz", k, "sz");
  }

  /** An upper-case prefix spelling is lower-cased; a text of neither shape is rejected. */
  lemma PrefixAndRejectExamples()
    ensures Normalize("SH600739") == Some("sh600739")
    ensures Normalize("abc123") == None
  {
    var k := Code(Sh, "600739");
    assert Canonical(k) == "sh600739";
    assert "SH" + k.body == "SH600739";
    PrefixSpellingNormalizes("SH600739", k, "SH");
  }

  /** The final-newline quirk: the prefix spelling keeps the newline, the suffix spelling drops it. */
  lemma FinalNewlineQuirk()
    ensures Normalize("sh600739\n") == Some("sh600739\n")
    ensures Normalize("600739.SH\n") == Some("sh600739")
    ensures Normalize("sh600739\n\n") == None
  {
    var k := Code(Sh, "600739");
    assert Canonical(k) == "sh600739";
    assert Canonical(k) + "\n" == "sh600739\n";
    assert "sh" + k.body + "\n" == "sh600739\n";
    assert k.body + "." + "SH" + "\n" == "600739.SH\n";
    PrefixSpellingNormalizes("sh600739\n", k, "sh");
    SuffixSpellingNormalizes("600739.SH\n", k, "SH");
  }
}
