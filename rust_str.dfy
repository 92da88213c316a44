/**
 * The parts of Rust's `str` and integer parsing that the heap-profile parser
 * relies on: `trim`, `split_ascii_whitespace`, `trim_start_matches`,
 * `trim_end_matches`, `str::parse::<usize>` and `usize::from_str_radix`.
 * `usize` is 64 bits wide.
 */
module RustStr {
  import opened Results

  /** One more than `usize::MAX`. */
  const UsizeLimit: nat := 0x1_0000_0000_0000_0000

  /** `char::is_whitespace`: the Unicode `White_Space` property. */
  predicate IsWhitespace(c: char)
  {
    ('\t' <= c <= '\r') || c == ' ' || c == '\U{0085}' || c == '\U{00A0}' || c == '\U{1680}'
    || ('\U{2000}' <= c <= '\U{200A}') || c == '\U{2028}' || c == '\U{2029}' || c == '\U{202F}'
    || c == '\U{205F}' || c == '\U{3000}'
  }

  /** `u8::is_ascii_whitespace`: space, tab, line feed, form feed, carriage return (not vertical tab). */
  predicate IsAsciiWhitespace(c: char)
  {
    c == ' ' || c == '\t' || c == '\n' || c == '\U{000C}' || c == '\r'
  }

  /** `str::trim_start`. */
  function TrimStart(s: string): (r: string)
    ensures |r| <= |s| && r == s[|s| - |r|..]
  {
    if |s| > 0 && IsWhitespace(s[0]) then TrimStart(s[1..]) else s
  }

  /** `str::trim_end`. */
  function TrimEnd(s: string): (r: string)
    ensures |r| <= |s| && r == s[..|r|]
  {
    if |s| > 0 && IsWhitespace(s[|s| - 1]) then TrimEnd(s[..|s| - 1]) else s
  }

  /** `str::trim`. */
  function Trim(s: string): string
  {
    TrimEnd(TrimStart(s))
  }

  /** `trim_start` drops leading whitespace and stops at the first other character. */
  lemma {:induction false} TrimStartDropsWhitespace(s: string)
    ensures var r := TrimStart(s);
      (forall i :: 0 <= i < |s| - |r| ==> IsWhitespace(s[i])) && (|r| > 0 ==> !IsWhitespace(r[0]))
  {
    if |s| > 0 && IsWhitespace(s[0]) {
      TrimStartDropsWhitespace(s[1..]);
      assert forall i :: 1 <= i < |s| ==> s[1..][i - 1] == s[i];
    }
  }

  /** `trim_end` drops trailing whitespace and stops at the last other character. */
  lemma {:induction false} TrimEndDropsWhitespace(s: string)
    ensures var r := TrimEnd(s);
      (forall i :: |r| <= i < |s| ==> IsWhitespace(s[i])) && (|r| > 0 ==> !IsWhitespace(r[|r| - 1]))
  {
    if |s| > 0 && IsWhitespace(s[|s| - 1]) {
      TrimEndDropsWhitespace(s[..|s| - 1]);
    }
  }

  /** What `trim` keeps is the slice of `s` after the leading whitespace. */
  lemma TrimIsSlice(s: string)
    ensures var r, lo := Trim(s), |s| - |TrimStart(s)|;
      lo + |r| <= |s| && r == s[lo..lo + |r|]
  {
    SliceOfSuffix(s, |s| - |TrimStart(s)|, |Trim(s)|);
  }

  lemma SliceOfSuffix<T>(s: seq<T>, lo: nat, n: nat)
    requires lo + n <= |s|
    ensures s[lo..][..n] == s[lo..lo + n]
  {
  }

  /** The words of `s` after the partial word `cur`: maximal runs free of ASCII whitespace. */
  function SplitFrom(s: string, cur: string): seq<string>
    decreases |s|
  {
    if s == [] then (if cur == [] then [] else [cur])
    else if IsAsciiWhitespace(s[0]) then (if cur == [] then [] else [cur]) + SplitFrom(s[1..], [])
    else SplitFrom(s[1..], cur + [s[0]])
  }

  /** `str::split_ascii_whitespace`. */
  function SplitAsciiWhitespace(s: string): seq<string>
  {
    SplitFrom(s, [])
  }

  /** Every piece is a word: non-empty and free of ASCII whitespace. */
  lemma {:induction false} SplitFromWords(s: string, cur: string)
    requires forall c :: c in cur ==> !IsAsciiWhitespace(c)
    ensures forall w :: w in SplitFrom(s, cur) ==> IsWord(w)
    decreases |s|
  {
    if s != [] {
      if IsAsciiWhitespace(s[0]) {
        SplitFromWords(s[1..], []);
      } else {
        SplitFromWords(s[1..], cur + [s[0]]);
      }
    }
  }

  /** `split_ascii_whitespace` yields only words. */
  lemma SplitAsciiWhitespaceWords(s: string)
    ensures forall w :: w in SplitAsciiWhitespace(s) ==> IsWord(w)
  {
    SplitFromWords(s, []);
  }

  /** The words `ws` separated by single spaces. */
  function JoinWords(ws: seq<string>): string
  {
    if ws == [] then [] else if |ws| == 1 then ws[0] else ws[0] + " " + JoinWords(ws[1..])
  }

  predicate IsWord(w: string)
  {
    |w| > 0 && forall c :: c in w ==> !IsAsciiWhitespace(c)
  }

  /** Splitting a word that continues the partial word `cur`, then the rest. */
  lemma {:induction false} SplitWord(w: string, rest: string, cur: string)
    requires forall c :: c in cur ==> !IsAsciiWhitespace(c)
    requires forall c :: c in w ==> !IsAsciiWhitespace(c)
    requires rest == [] || IsAsciiWhitespace(rest[0])
    ensures SplitFrom(w + rest, cur) == SplitFrom(rest, cur + w)
    decreases |w|
  {
    if w == [] {
      assert w + rest == rest;
      assert cur + w == cur;
    } else {
      assert (w + rest)[0] == w[0];
      assert (w + rest)[1..] == w[1..] + rest;
      assert w[0] in w;
      SplitWord(w[1..], rest, cur + [w[0]]);
      assert cur + [w[0]] + w[1..] == cur + w;
    }
  }

  /** Words joined by single spaces split back into the same words. */
  lemma {:induction false} SplitJoinWords(ws: seq<string>)
    requires forall i :: 0 <= i < |ws| ==> IsWord(ws[i])
    ensures SplitAsciiWhitespace(JoinWords(ws)) == ws
  {
    if ws == [] {
    } else if |ws| == 1 {
      SplitWord(ws[0], [], []);
      assert ws[0] + [] == ws[0];
      assert [] + ws[0] == ws[0];
    } else {
      var rest := " " + JoinWords(ws[1..]);
      assert JoinWords(ws) == ws[0] + rest;
      SplitWord(ws[0], rest, []);
      assert [] + ws[0] == ws[0];
      assert rest[1..] == JoinWords(ws[1..]);
      SplitJoinWords(ws[1..]);
      assert ws == [ws[0]] + ws[1..];
    }
  }

  /** A word with no Unicode whitespace at all, so neither `trim` nor the split touches it. */
  predicate IsPlainWord(w: string)
  {
    |w| > 0 && forall c :: c in w ==> !IsWhitespace(c)
  }

  /** The first and last characters of joined words are those of the first and last word. */
  lemma {:induction false} JoinWordsEnds(ws: seq<string>)
    requires |ws| > 0 && forall i :: 0 <= i < |ws| ==> |ws[i]| > 0
    ensures var j, last := JoinWords(ws), ws[|ws| - 1];
      |j| > 0 && j[0] == ws[0][0] && j[|j| - 1] == last[|last| - 1]
  {
    if |ws| > 1 {
      JoinWordsEnds(ws[1..]);
      assert ws[1..][|ws[1..]| - 1] == ws[|ws| - 1];
    }
  }

  /** Text that neither starts nor ends with whitespace is left alone by `trim`. */
  lemma TrimOfTrimmed(s: string)
    requires |s| > 0 && !IsWhitespace(s[0]) && !IsWhitespace(s[|s| - 1])
    ensures Trim(s) == s
  {
    assert TrimStart(s) == s;
  }

  lemma PlainIsWord(w: string)
    requires IsPlainWord(w)
    ensures IsWord(w)
  {
    forall c | c in w
      ensures !IsAsciiWhitespace(c)
    {
      assert !IsWhitespace(c);
    }
  }

  /** Plain words joined by spaces are left alone by `trim` and split back into the same words. */
  lemma TrimSplitJoinWords(ws: seq<string>)
    requires |ws| > 0 && forall i :: 0 <= i < |ws| ==> IsPlainWord(ws[i])
    ensures Trim(JoinWords(ws)) == JoinWords(ws)
    ensures SplitAsciiWhitespace(Trim(JoinWords(ws))) == ws
  {
    JoinWordsEnds(ws);
    var j, last := JoinWords(ws), ws[|ws| - 1];
    assert ws[0][0] in ws[0] && last[|last| - 1] in last;
    TrimOfTrimmed(j);
    forall i | 0 <= i < |ws|
      ensures IsWord(ws[i])
    {
      PlainIsWord(ws[i]);
    }
    SplitJoinWords(ws);
  }

  /** `str::trim_start_matches(p)`: strips every leading repetition of `p`. */
  function TrimStartMatches(s: string, p: string): string
    requires |p| > 0
    decreases |s|
  {
    if p <= s then TrimStartMatches(s[|p|..], p) else s
  }

  /** What `trim_start_matches` keeps is a suffix that no longer starts with `p`. */
  lemma {:induction false} TrimStartMatchesSuffix(s: string, p: string)
    requires |p| > 0
    ensures var r := TrimStartMatches(s, p); |r| <= |s| && r == s[|s| - |r|..] && !(p <= r)
    decreases |s|
  {
    if p <= s {
      TrimStartMatchesSuffix(s[|p|..], p);
    }
  }

  /** One copy of `p` in front of text that does not start with `p` is exactly what gets stripped. */
  lemma TrimStartMatchesOnce(p: string, s: string)
    requires |p| > 0 && !(p <= s)
    ensures TrimStartMatches(p + s, p) == s
  {
    assert p <= p + s;
    assert (p + s)[|p|..] == s;
  }

  /** `str::trim_end_matches(c)`: strips every trailing `c`. */
  function TrimEndMatches(s: string, c: char): string
  {
    if |s| > 0 && s[|s| - 1] == c then TrimEndMatches(s[..|s| - 1], c) else s
  }

  /** What `trim_end_matches` keeps is a prefix that no longer ends with `c`. */
  lemma {:induction false} TrimEndMatchesPrefix(s: string, c: char)
    ensures var r := TrimEndMatches(s, c); |r| <= |s| && r == s[..|r|] && (|r| > 0 ==> r[|r| - 1] != c)
  {
    if |s| > 0 && s[|s| - 1] == c {
      TrimEndMatchesPrefix(s[..|s| - 1], c);
    }
  }

  /** One `c` after text that does not end in `c` is exactly what gets stripped. */
  lemma TrimEndMatchesOnce(s: string, c: char)
    requires |s| > 0 && s[|s| - 1] != c
    ensures TrimEndMatches(s + [c], c) == s
  {
    assert (s + [c])[..|s|] == s;
  }

  /** `char::to_digit(radix)`: `0-9`, then letters of either case. */
  function Digit(c: char, radix: nat): Option<nat>
  {
    var d: int :=
      if '0' <= c <= '9' then c as int - '0' as int
      else if 'a' <= c <= 'z' then c as int - 'a' as int + 10
      else if 'A' <= c <= 'Z' then c as int - 'A' as int + 10
      else -1;
    if 0 <= d < radix then Some(d) else None
  }

  /** The value of the digit string `s`, most significant first, or `None` if some character is not a digit. */
  function DigitsValue(s: string, radix: nat): Option<nat>
  {
    if s == [] then Some(0)
    else match DigitsValue(s[..|s| - 1], radix)
      case None => None
      case Some(v) =>
        match Digit(s[|s| - 1], radix)
        case None => None
        case Some(d) => Some(v * radix + d)
  }

  /**
   * `usize::from_str_radix(s, radix)` (and `str::parse::<usize>` for radix
   * 10): an optional `+`, then at least one digit; fails on any other
   * character and when the value does not fit in 64 bits.
   */
  function ParseUsize(s: string, radix: nat): (r: Option<nat>)
    ensures r.Some? ==> r.value < UsizeLimit
  {
    var digits := if |s| > 0 && s[0] == '+' then s[1..] else s;
    if |digits| == 0 then None
    else match DigitsValue(digits, radix)
      case None => None
      case Some(v) => if v < UsizeLimit then Some(v) else None
  }

  /** The lower-case digit character of `d`. */
  function DigitChar(d: nat): char
    requires d < 36
  {
    if d < 10 then ('0' as int + d) as char else ('a' as int + d - 10) as char
  }

  /** The digit character of `d` reads back as `d`. */
  lemma DigitCharValue(d: nat, radix: nat)
    requires d < radix <= 36
    ensures Digit(DigitChar(d), radix) == Some(d)
  {
  }

  /** `n` written in base `radix` without leading zeros (`format!("{:x}")` for 16). */
  function Render(n: nat, radix: nat): (r: string)
    requires 2 <= radix <= 36
    ensures |r| > 0
  {
    if n < radix then [DigitChar(n)]
    else
      DivideByRadix(n, radix);
      Render(n / radix, radix) + [DigitChar(n % radix)]
  }

  /** Euclidean division by the radix: a smaller quotient and the remainder as last digit. */
  lemma DivideByRadix(n: nat, radix: nat)
    requires 2 <= radix <= n
    ensures n / radix < n && n % radix < radix
    ensures (n / radix) * radix + n % radix == n
  {
  }

  /** Every character of a rendered number is a digit of its radix. */
  lemma {:induction false} RenderIsDigits(n: nat, radix: nat)
    requires 2 <= radix <= 16
    ensures forall i :: 0 <= i < |Render(n, radix)| ==> Digit(Render(n, radix)[i], radix).Some?
  {
    if n < radix {
      DigitCharValue(n, radix);
    } else {
      DivideByRadix(n, radix);
      var r, hi := Render(n, radix), Render(n / radix, radix);
      RenderIsDigits(n / radix, radix);
      DigitCharValue(n % radix, radix);
      assert r == hi + [DigitChar(n % radix)];
      forall i | 0 <= i < |r|
        ensures Digit(r[i], radix).Some?
      {
        if i < |hi| {
          assert r[i] == hi[i];
        }
      }
    }
  }

  /** Reading one more digit scales the value so far by the radix. */
  lemma DigitsValueSnoc(s: string, c: char, radix: nat, v: nat, d: nat)
    requires DigitsValue(s, radix) == Some(v) && Digit(c, radix) == Some(d)
    ensures DigitsValue(s + [c], radix) == Some(v * radix + d)
  {
    assert (s + [c])[..|s + [c]| - 1] == s;
  }

  /** Rendering then reading back the digits gives `n`. */
  lemma {:induction false} RenderDigits(n: nat, radix: nat)
    requires 2 <= radix <= 16
    ensures DigitsValue(Render(n, radix), radix) == Some(n)
  {
    if n < radix {
      DigitCharValue(n, radix);
      assert [DigitChar(n)] == [] + [DigitChar(n)];
      DigitsValueSnoc([], DigitChar(n), radix, 0, n);
    } else {
      DivideByRadix(n, radix);
      var q, d := n / radix, n % radix;
      RenderDigits(q, radix);
      DigitCharValue(d, radix);
      DigitsValueSnoc(Render(q, radix), DigitChar(d), radix, q, d);
    }
  }

  /** `parse` of a rendered value gives the value back. */
  lemma ParseRendered(n: nat, radix: nat)
    requires 2 <= radix <= 16 && n < UsizeLimit
    ensures ParseUsize(Render(n, radix), radix) == Some(n)
  {
    RenderDigits(n, radix);
    var r := Render(n, radix);
    RenderIsDigits(n, radix);
    assert Digit(r[0], radix).Some?;
  }
}
