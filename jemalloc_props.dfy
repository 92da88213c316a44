/**
 * What `parse_jeheap` guarantees about the profiles it accepts and the files
 * it rejects, stated over `Jemalloc.Parse`.
 */
module JemallocProps {
  import opened Results
  import opened RustStr
  import opened Jemalloc

  /** The reversed addresses of a line that is an `@` line, as a one-element list. */
  function LineAddrs(words: seq<string>): seq<seq<nat>>
  {
    if IsStackLine(words) then
      match ParseAddresses(words[1..])
      case None => [[]]
      case Some(a) => [Reverse(a)]
    else []
  }

  /** The reversed addresses of every `@` line, in file order. */
  function StackLineAddrs(lineWords: seq<seq<string>>): seq<seq<nat>>
  {
    if lineWords == [] then [] else LineAddrs(lineWords[0]) + StackLineAddrs(lineWords[1..])
  }

  function NumStackLines(lineWords: seq<seq<string>>): nat
  {
    if lineWords == [] then 0
    else (if IsStackLine(lineWords[0]) then 1 else 0) + NumStackLines(lineWords[1..])
  }

  function Addrs(stacks: seq<WeightedStack>): (r: seq<seq<nat>>)
    ensures |r| == |stacks| && forall i :: 0 <= i < |stacks| ==> r[i] == stacks[i].addrs
  {
    seq(|stacks|, i requires 0 <= i < |stacks| => stacks[i].addrs)
  }

  function PendingAddrs(pending: Option<seq<nat>>): seq<seq<nat>>
  {
    match pending
    case None => []
    case Some(a) => [a]
  }

  /** One successful step, then the rest of the lines. */
  lemma RunStep(lineWords: seq<seq<string>>, rate: nat, st: State, next: State)
    requires lineWords != [] && Step(lineWords[0], rate, st) == Success(next)
    ensures Run(lineWords, rate, st) == Run(lineWords[1..], rate, next)
  {
  }

  /** What one successful step does to the collected stacks. */
  lemma StepCollects(words: seq<string>, rate: nat, st: State, next: State)
    requires Step(words, rate, st) == Success(next)
    ensures st.stacks <= next.stacks
    ensures forall i :: |st.stacks| <= i < |next.stacks| ==> next.stacks[i].weight.samplingRate == rate
    ensures Addrs(next.stacks) + PendingAddrs(next.pending) == Addrs(st.stacks) + PendingAddrs(st.pending) + LineAddrs(words)
  {
    if IsStackLine(words) {
      assert next.stacks == st.stacks;
    } else if IsWeightLine(words) && st.pending.Some? {
      assert Addrs(next.stacks) == Addrs(st.stacks) + [st.pending.value];
    }
  }

  /** A successful run only appends stacks, each carrying the header's rate. */
  lemma {:induction false} RunAppendsStacks(lineWords: seq<seq<string>>, rate: nat, st: State)
    requires Run(lineWords, rate, st).Success?
    ensures var fin := Run(lineWords, rate, st).value;
      st.stacks <= fin.stacks
      && forall i :: |st.stacks| <= i < |fin.stacks| ==> fin.stacks[i].weight.samplingRate == rate
  {
    if lineWords != [] {
      var next := Step(lineWords[0], rate, st).value;
      RunStep(lineWords, rate, st, next);
      StepCollects(lineWords[0], rate, st, next);
      RunAppendsStacks(lineWords[1..], rate, next);
    }
  }

  lemma Regroup<T>(whole: seq<T>, mid: seq<T>, start: seq<T>, here: seq<T>, later: seq<T>)
    requires whole == mid + later && mid == start + here
    ensures whole == start + (here + later)
  {
  }

  /**
   * Every `@` line's reversed addresses end up, in file order, either as a
   * stack or as the one still waiting for its weight.
   */
  lemma {:induction false} RunCollectsStackLines(lineWords: seq<seq<string>>, rate: nat, st: State)
    requires Run(lineWords, rate, st).Success?
    ensures var fin := Run(lineWords, rate, st).value;
      Addrs(fin.stacks) + PendingAddrs(fin.pending)
      == Addrs(st.stacks) + PendingAddrs(st.pending) + StackLineAddrs(lineWords)
  {
    if lineWords != [] {
      var next := Step(lineWords[0], rate, st).value;
      RunStep(lineWords, rate, st, next);
      StepCollects(lineWords[0], rate, st, next);
      RunCollectsStackLines(lineWords[1..], rate, next);
      var fin := Run(lineWords, rate, st).value;
      Regroup(Addrs(fin.stacks) + PendingAddrs(fin.pending), Addrs(next.stacks) + PendingAddrs(next.pending),
              Addrs(st.stacks) + PendingAddrs(st.pending), LineAddrs(lineWords[0]), StackLineAddrs(lineWords[1..]));
    }
  }

  lemma {:induction false} StackLineAddrsCount(lineWords: seq<seq<string>>)
    ensures |StackLineAddrs(lineWords)| == NumStackLines(lineWords)
  {
    if lineWords != [] {
      StackLineAddrsCount(lineWords[1..]);
    }
  }

  /**
   * The parsed stacks are the `@` lines' address lists, reversed, in file
   * order: one stack per `@` line, each weighed with the header's rate.
   */
  lemma ParsedStacksFollowStackLines(lines: seq<string>)
    requires Parse(lines).Success?
    ensures var stacks, lineWords := Parse(lines).value.stacks, Tokenize(lines[1..]);
      Addrs(stacks) == StackLineAddrs(lineWords)
      && |stacks| == NumStackLines(lineWords)
      && forall i :: 0 <= i < |stacks| ==> Some(stacks[i].weight.samplingRate) == SamplingRate(lines[0])
  {
    var rate, lineWords := SamplingRate(lines[0]).value, Tokenize(lines[1..]);
    RunAppendsStacks(lineWords, rate, State(None, []));
    RunCollectsStackLines(lineWords, rate, State(None, []));
    StackLineAddrsCount(lineWords);
    var fin := Run(lineWords, rate, State(None, [])).value;
    assert Addrs([]) + PendingAddrs(None) == [];
    assert Addrs(fin.stacks) + PendingAddrs(fin.pending) == Addrs(fin.stacks);
  }

  /** None of the lines is a weight line. */
  predicate WeightFree(lineWords: seq<seq<string>>)
  {
    lineWords == [] || (!IsWeightLine(lineWords[0]) && WeightFree(lineWords[1..]))
  }

  /** A stack waiting for its weight is never weighed by lines that hold no weight line. */
  lemma {:induction false} PendingStaysUnweighed(lineWords: seq<seq<string>>, rate: nat, st: State)
    requires st.pending.Some? && WeightFree(lineWords)
    ensures Run(lineWords, rate, st).Success? ==> Run(lineWords, rate, st).value.pending.Some?
  {
    if lineWords != [] && !IsStackLine(lineWords[0]) {
      assert Step(lineWords[0], rate, st) == Success(st);
      RunStep(lineWords, rate, st, st);
      PendingStaysUnweighed(lineWords[1..], rate, st);
    }
  }

  /** After an `@` line with no weight line behind it, a successful run still has a stack waiting. */
  lemma {:induction false} UnweighedStackStaysPending(lineWords: seq<seq<string>>, k: nat, rate: nat, st: State)
    requires k < |lineWords| && IsStackLine(lineWords[k]) && WeightFree(lineWords[k + 1..])
    ensures Run(lineWords, rate, st).Success? ==> Run(lineWords, rate, st).value.pending.Some?
  {
    if Step(lineWords[0], rate, st).Success? {
      var next := Step(lineWords[0], rate, st).value;
      RunStep(lineWords, rate, st, next);
      if k == 0 {
        assert next.pending.Some?;
        PendingStaysUnweighed(lineWords[1..], rate, next);
      } else {
        TailSlices(lineWords, k);
        UnweighedStackStaysPending(lineWords[1..], k - 1, rate, next);
      }
    }
  }

  /**
   * A file whose last `@` line is followed by no weight line is rejected:
   * either by the next `@` line or at the end of the file.
   */
  lemma UnweighedStackFails(lines: seq<string>, k: nat)
    requires 1 <= k < |lines|
    requires IsStackLine(Words(lines[k])) && WeightFree(Tokenize(lines[k + 1..]))
    ensures Parse(lines).Failure?
  {
    if SamplingRate(lines[0]).Some? {
      var rate := SamplingRate(lines[0]).value;
      var rest := Tokenize(lines[1..]);
      TokenizeSuffix(lines[1..], k - 1);
      TokenizeFrom(lines[1..], k - 1);
      TailSlices(lines, k);
      SplitAt(rest, k - 1, Words(lines[k]), Tokenize(lines[k + 1..]));
      UnweighedStackStaysPending(rest, k - 1, rate, State(None, []));
      ParseOutcome(lines, rate);
    }
  }

  /** Tokenizing a suffix is the suffix of the tokenized lines. */
  lemma {:induction false} TokenizeSuffix(lines: seq<string>, i: nat)
    requires i <= |lines|
    ensures Tokenize(lines)[i..] == Tokenize(lines[i..])
  {
    if i > 0 {
      assert lines[1..][i - 1..] == lines[i..];
      TokenizeSuffix(lines[1..], i - 1);
      DropFirst(Words(lines[0]), Tokenize(lines[1..]), i);
    }
  }

  lemma TailSlices<T>(s: seq<T>, k: nat)
    requires 1 <= k < |s|
    ensures s[1..][k - 1] == s[k] && s[1..][k..] == s[k + 1..]
  {
  }

  lemma SplitAt<T>(t: seq<T>, i: nat, x: T, u: seq<T>)
    requires i < |t| && t[i..] == [x] + u
    ensures t[i] == x && t[i + 1..] == u
  {
    assert t[i..][0] == t[i] && t[i..][1..] == t[i + 1..];
  }

  lemma DropFirst<T>(x: T, t: seq<T>, i: nat)
    requires 1 <= i <= |t| + 1
    ensures ([x] + t)[i..] == t[i - 1..]
  {
  }

  /** A parse fails whenever the run over the lines after a valid header fails or leaves a stack waiting. */
  lemma ParseOutcome(lines: seq<string>, rate: nat)
    requires lines != [] && SamplingRate(lines[0]) == Some(rate)
    requires var run := Run(Tokenize(lines[1..]), rate, State(None, []));
      run.Success? ==> run.value.pending.Some?
    ensures Parse(lines).Failure?
  {
  }

  // Printing a minimal heap_v2 profile.

  function Hex(n: nat): string
  {
    HexPrefix + Render(n, 16)
  }

  function HexWords(addrs: seq<nat>): (r: seq<string>)
    ensures |r| == |addrs| && forall i :: 0 <= i < |addrs| ==> r[i] == Hex(addrs[i])
  {
    seq(|addrs|, i requires 0 <= i < |addrs| => Hex(addrs[i]))
  }

  /** jemalloc lists a backtrace outermost frame last, hence the reversal. */
  function StackLine(addrs: seq<nat>): string
  {
    JoinWords(["@"] + HexWords(Reverse(addrs)))
  }

  function WeightLine(w: Sample): string
  {
    JoinWords(["t*:", Render(w.objs, 10) + ":", Render(w.bytes, 10), "[0:", "0]"])
  }

  function PrintStacks(stacks: seq<WeightedStack>): seq<string>
  {
    if stacks == [] then [] else [StackLine(stacks[0].addrs), WeightLine(stacks[0].weight)] + PrintStacks(stacks[1..])
  }

  function PrintProfile(rate: nat, stacks: seq<WeightedStack>): seq<string>
  {
    [HeaderPrefix + Render(rate, 10)] + PrintStacks(stacks)
  }

  /** Every number fits in `usize` and every stack was sampled at `rate`. */
  predicate Printable(rate: nat, stacks: seq<WeightedStack>)
  {
    rate < UsizeLimit
    && forall i :: 0 <= i < |stacks| ==>
         stacks[i].weight.samplingRate == rate
         && stacks[i].weight.objs < UsizeLimit && stacks[i].weight.bytes < UsizeLimit
         && forall j :: 0 <= j < |stacks[i].addrs| ==> stacks[i].addrs[j] < UsizeLimit
  }

  lemma DigitIsPlain(c: char, radix: nat)
    requires radix <= 16 && Digit(c, radix).Some?
    ensures !IsWhitespace(c) && c != 'x' && c != ':' && c != 'h'
  {
  }

  lemma DigitsArePlain(s: string, radix: nat)
    requires radix <= 16 && forall i :: 0 <= i < |s| ==> Digit(s[i], radix).Some?
    ensures forall c :: c in s ==> !IsWhitespace(c) && c != 'x' && c != ':' && c != 'h'
  {
    forall c | c in s
      ensures !IsWhitespace(c) && c != 'x' && c != ':' && c != 'h'
    {
      var i :| 0 <= i < |s| && s[i] == c;
      DigitIsPlain(c, radix);
    }
  }

  lemma ParseHex(n: nat)
    requires n < UsizeLimit
    ensures IsPlainWord(Hex(n)) && ParseAddress(Hex(n)) == Some(n)
  {
    HexIsPlain(n);
    ParseHexValue(n);
  }

  lemma HexIsPlain(n: nat)
    ensures IsPlainWord(Hex(n))
  {
    var h := Render(n, 16);
    RenderIsDigits(n, 16);
    DigitsArePlain(h, 16);
    forall c | c in Hex(n)
      ensures !IsWhitespace(c)
    {
      if c !in h {
        assert c in HexPrefix;
      }
    }
  }

  lemma ParseHexValue(n: nat)
    requires n < UsizeLimit
    ensures ParseAddress(Hex(n)) == Some(n)
  {
    var h := Render(n, 16);
    RenderIsDigits(n, 16);
    DigitsArePlain(h, 16);
    assert !(HexPrefix <= h) by {
      if |h| >= 2 {
        assert h[1] in h;
      }
    }
    TrimStartMatchesOnce(HexPrefix, h);
    ParseRendered(n, 16);
  }

  lemma ParseDecimal(n: nat)
    requires n < UsizeLimit
    ensures IsPlainWord(Render(n, 10)) && ParseUsize(Render(n, 10), 10) == Some(n)
  {
    RenderIsDigits(n, 10);
    DigitsArePlain(Render(n, 10), 10);
    ParseRendered(n, 10);
  }

  /** The object count of a weight line, `<objs>:`. */
  lemma ParseCountWord(n: nat)
    requires n < UsizeLimit
    ensures IsPlainWord(Render(n, 10) + ":") && ParseUsize(TrimEndMatches(Render(n, 10) + ":", ':'), 10) == Some(n)
  {
    var d := Render(n, 10);
    ParseDecimal(n);
    RenderIsDigits(n, 10);
    DigitsArePlain(d, 10);
    assert d[|d| - 1] in d;
    TrimEndMatchesOnce(d, ':');
  }

  lemma ParseHeader(n: nat)
    requires n < UsizeLimit
    ensures SamplingRate(HeaderPrefix + Render(n, 10)) == Some(n)
  {
    var d := Render(n, 10);
    RenderIsDigits(n, 10);
    DigitsArePlain(d, 10);
    assert d[0] in d;
    TrimStartMatchesOnce(HeaderPrefix, d);
    ParseRendered(n, 10);
  }

  /** Plain words joined by single spaces read back as those words. */
  lemma WordsOfJoin(ws: seq<string>)
    requires |ws| > 0 && forall i :: 0 <= i < |ws| ==> IsPlainWord(ws[i])
    ensures Words(JoinWords(ws)) == ws
  {
    TrimSplitJoinWords(ws);
  }

  /** Hexadecimal words parse back to their addresses. */
  lemma ParseHexWords(addrs: seq<nat>)
    requires forall j :: 0 <= j < |addrs| ==> addrs[j] < UsizeLimit
    ensures ParseAddresses(HexWords(addrs)) == Some(addrs)
  {
    forall i | 0 <= i < |addrs|
      ensures ParseAddress(HexWords(addrs)[i]) == Some(addrs[i])
    {
      ParseHex(addrs[i]);
    }
    ParseAddressesPointwise(HexWords(addrs));
    var parsed := ParseAddresses(HexWords(addrs)).value;
    assert |parsed| == |addrs|;
    forall i | 0 <= i < |addrs|
      ensures parsed[i] == addrs[i]
    {
      assert Some(parsed[i]) == ParseAddress(HexWords(addrs)[i]);
    }
    assert parsed == addrs;
  }

  /** The words of a printed `@` line. */
  function StackWords(addrs: seq<nat>): seq<string>
  {
    ["@"] + HexWords(Reverse(addrs))
  }

  /** The words of a printed weight line. */
  function WeightWords(w: Sample): seq<string>
  {
    ["t*:", Render(w.objs, 10) + ":", Render(w.bytes, 10), "[0:", "0]"]
  }

  /** The words of the printed stacks, two lines per stack. */
  function PrintedWords(stacks: seq<WeightedStack>): seq<seq<string>>
  {
    if stacks == [] then [] else [StackWords(stacks[0].addrs), WeightWords(stacks[0].weight)] + PrintedWords(stacks[1..])
  }

  lemma StackLineWords(addrs: seq<nat>)
    requires forall j :: 0 <= j < |addrs| ==> addrs[j] < UsizeLimit
    ensures Words(StackLine(addrs)) == StackWords(addrs)
  {
    var rev := Reverse(addrs);
    var ws := ["@"] + HexWords(rev);
    forall i | 0 <= i < |ws|
      ensures IsPlainWord(ws[i])
    {
      if i > 0 {
        ParseHex(rev[i - 1]);
      }
    }
    WordsOfJoin(ws);
  }

  lemma WeightLineWords(w: Sample)
    requires w.objs < UsizeLimit && w.bytes < UsizeLimit
    ensures Words(WeightLine(w)) == WeightWords(w)
  {
    ParseCountWord(w.objs);
    ParseDecimal(w.bytes);
    var ws := WeightWords(w);
    assert forall i :: 0 <= i < |ws| ==> IsPlainWord(ws[i]);
    WordsOfJoin(ws);
  }

  /** A printed `@` line opens its stack. */
  lemma StepStackLine(addrs: seq<nat>, rate: nat, acc: seq<WeightedStack>)
    requires forall j :: 0 <= j < |addrs| ==> addrs[j] < UsizeLimit
    ensures Step(StackWords(addrs), rate, State(None, acc)) == Success(State(Some(addrs), acc))
  {
    var rev := Reverse(addrs);
    assert StackWords(addrs)[1..] == HexWords(rev);
    ParseHexWords(rev);
    ReverseReverse(addrs);
  }

  /** A printed weight line closes the waiting stack. */
  lemma StepWeightLine(w: Sample, rate: nat, addrs: seq<nat>, acc: seq<WeightedStack>)
    requires w.objs < UsizeLimit && w.bytes < UsizeLimit && w.samplingRate == rate
    ensures Step(WeightWords(w), rate, State(Some(addrs), acc)) == Success(State(None, acc + [WeightedStack(addrs, w)]))
  {
    ParseCountWord(w.objs);
    ParseDecimal(w.bytes);
  }

  /** Two successful steps, then the rest of the lines. */
  lemma RunTwoSteps(first: seq<string>, second: seq<string>, rest: seq<seq<string>>, rate: nat, st: State, mid: State, fin: State)
    requires Step(first, rate, st) == Success(mid)
    requires Step(second, rate, mid) == Success(fin)
    ensures Run([first, second] + rest, rate, st) == Run(rest, rate, fin)
  {
    var lineWords := [first, second] + rest;
    assert lineWords[0] == first && lineWords[1..] == [second] + rest;
    assert lineWords[1..][0] == second && lineWords[1..][1..] == rest;
  }

  lemma ConsTwo<T>(x: T, y: T, t: seq<T>)
    ensures [x] + ([y] + t) == [x, y] + t
  {
  }

  lemma PrintableTail(rate: nat, stacks: seq<WeightedStack>)
    requires stacks != [] && Printable(rate, stacks)
    ensures Printable(rate, stacks[1..])
  {
    assert forall i :: 0 <= i < |stacks[1..]| ==> stacks[1..][i] == stacks[i + 1];
  }

  /** Every line jemalloc prints reads back as the words it was printed from. */
  lemma {:induction false} TokenizePrinted(rate: nat, stacks: seq<WeightedStack>)
    requires Printable(rate, stacks)
    ensures Tokenize(PrintStacks(stacks)) == PrintedWords(stacks)
  {
    if stacks != [] {
      var s := stacks[0];
      var lines := PrintStacks(stacks);
      assert lines[1..][1..] == PrintStacks(stacks[1..]);
      PrintableTail(rate, stacks);
      TokenizePrinted(rate, stacks[1..]);
      StackLineWords(s.addrs);
      WeightLineWords(s.weight);
      ConsTwo(Words(lines[0]), Words(lines[1]), Tokenize(PrintStacks(stacks[1..])));
    }
  }

  /**
   * The lines come in pairs, each an `@` line that opens the next stack and a
   * weight line that closes it.
   */
  predicate Pairs(lineWords: seq<seq<string>>, stacks: seq<WeightedStack>, rate: nat, acc: seq<WeightedStack>)
  {
    if stacks == [] then lineWords == []
    else
      && |lineWords| >= 2
      && Step(lineWords[0], rate, State(None, acc)) == Success(State(Some(stacks[0].addrs), acc))
      && Step(lineWords[1], rate, State(Some(stacks[0].addrs), acc)) == Success(State(None, acc + [stacks[0]]))
      && Pairs(lineWords[2..], stacks[1..], rate, acc + [stacks[0]])
  }

  lemma {:induction false} RunPairs(lineWords: seq<seq<string>>, stacks: seq<WeightedStack>, rate: nat, acc: seq<WeightedStack>)
    requires Pairs(lineWords, stacks, rate, acc)
    ensures Run(lineWords, rate, State(None, acc)) == Success(State(None, acc + stacks))
  {
    if stacks == [] {
      assert acc + stacks == acc;
    } else {
      var s := stacks[0];
      SplitTwo(lineWords);
      RunTwoSteps(lineWords[0], lineWords[1], lineWords[2..], rate, State(None, acc), State(Some(s.addrs), acc), State(None, acc + [s]));
      RunPairs(lineWords[2..], stacks[1..], rate, acc + [s]);
      assert acc + [s] + stacks[1..] == acc + stacks;
    }
  }

  lemma SplitTwo<T>(t: seq<T>)
    requires |t| >= 2
    ensures t == [t[0], t[1]] + t[2..]
  {
  }

  lemma {:induction false} PrintedPairs(stacks: seq<WeightedStack>, rate: nat, acc: seq<WeightedStack>)
    requires Printable(rate, stacks)
    ensures Pairs(PrintedWords(stacks), stacks, rate, acc)
  {
    if stacks != [] {
      var s := stacks[0];
      var lineWords := PrintedWords(stacks);
      assert lineWords[0] == StackWords(s.addrs) && lineWords[1] == WeightWords(s.weight);
      assert lineWords[2..] == PrintedWords(stacks[1..]);
      StepStackLine(s.addrs, rate, acc);
      StepWeightLine(s.weight, rate, s.addrs, acc);
      PrintableTail(rate, stacks);
      PrintedPairs(stacks[1..], rate, acc + [s]);
    }
  }

  /** A profile printed in the heap_v2 format parses back to itself. */
  lemma ParsePrintedProfile(rate: nat, stacks: seq<WeightedStack>)
    requires Printable(rate, stacks)
    ensures Parse(PrintProfile(rate, stacks)) == Success(StackProfile(stacks))
  {
    ParseHeader(rate);
    assert PrintProfile(rate, stacks)[1..] == PrintStacks(stacks);
    TokenizePrinted(rate, stacks);
    PrintedPairs(stacks, rate, []);
    RunPairs(PrintedWords(stacks), stacks, rate, []);
    assert [] + stacks == stacks;
  }
}
