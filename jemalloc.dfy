/**
 * `parse_jeheap`: reads a jemalloc heap profile ("heap_v2" text format) into
 * its weighted stacks.
 *
 * The file is given as its sequence of lines (`BufRead::lines` has already
 * removed the line terminators). The first line is `heap_v2/<rate>`; after
 * it, a line `@ <addr> <addr> ...` opens a stack and a later line
 * `t*: <objs>: <bytes> ...` gives it its weight. Every other line is
 * ignored. The weight itself is a floating-point function of the three
 * numbers, so a stack here carries those numbers (`Sample`).
 */
module Jemalloc {
  import opened Results
  import opened RustStr

  /** Why a heap profile is rejected. */
  datatype ParseError =
    | EmptyFile            // "Heap dump file was empty"
    | BadSamplingRate      // the header's number does not parse as `usize`
    | BadAddress           // an address of a stack line does not parse as hexadecimal `usize`
    | BadSampleCount       // one of the two numbers of a weight line does not parse as `usize`
    | StackWithoutWeight   // "Stack without corresponding weight!"

  /** The numbers behind a stack's weight: sampled objects, their bytes, and the header's sampling rate. */
  datatype Sample = Sample(objs: nat, bytes: nat, samplingRate: nat)

  /** `WeightedStack`: the stack's addresses, innermost frame last. */
  datatype WeightedStack = WeightedStack(addrs: seq<nat>, weight: Sample)

  datatype StackProfile = StackProfile(stacks: seq<WeightedStack>)

  /** The parser's state between lines: the stack waiting for its weight, and the stacks so far. */
  datatype State = State(pending: Option<seq<nat>>, stacks: seq<WeightedStack>)

  const HeaderPrefix: string := "heap_v2/"
  const HexPrefix: string := "0x"

  /** A line's words: the line trimmed, then split on ASCII whitespace. */
  function Words(line: string): seq<string>
  {
    SplitAsciiWhitespace(Trim(line))
  }

  predicate IsStackLine(words: seq<string>)
  {
    |words| > 0 && words[0] == "@"
  }

  predicate IsWeightLine(words: seq<string>)
  {
    |words| > 2 && words[0] == "t*:"
  }

  function SamplingRate(header: string): Option<nat>
  {
    ParseUsize(TrimStartMatches(header, HeaderPrefix), 10)
  }

  /** One address: hexadecimal after every leading `0x` is stripped. */
  function ParseAddress(word: string): Option<nat>
  {
    ParseUsize(TrimStartMatches(word, HexPrefix), 16)
  }

  /** `acc` followed by the parsed rest, if the rest parsed. */
  function Prepend(acc: seq<nat>, rest: Option<seq<nat>>): Option<seq<nat>>
  {
    match rest
    case None => None
    case Some(t) => Some(acc + t)
  }

  lemma PrependPrepend(acc: seq<nat>, a: seq<nat>, rest: Option<seq<nat>>)
    ensures Prepend(acc, Prepend(a, rest)) == Prepend(acc + a, rest)
  {
    if rest.Some? {
      assert acc + (a + rest.value) == (acc + a) + rest.value;
    }
  }

  /** `map(f).collect::<Result<Vec<_>, _>>()`: every value in order, or `None` as soon as one is missing. */
  function CollectAll<T>(f: T -> Option<nat>, xs: seq<T>): Option<seq<nat>>
  {
    if xs == [] then Some([])
    else match f(xs[0])
      case None => None
      case Some(a) => Prepend([a], CollectAll(f, xs[1..]))
  }

  /** All addresses of a stack line, or `None` as soon as one is malformed. */
  function ParseAddresses(words: seq<string>): Option<seq<nat>>
  {
    CollectAll(ParseAddress, words)
  }

  /** The addresses parse exactly when every word does, and then word by word. */
  lemma ParseAddressesPointwise(words: seq<string>)
    ensures ParseAddresses(words).Some? <==> forall i :: 0 <= i < |words| ==> ParseAddress(words[i]).Some?
    ensures ParseAddresses(words).Some? ==>
              |ParseAddresses(words).value| == |words|
              && forall i :: 0 <= i < |words| ==> Some(ParseAddresses(words).value[i]) == ParseAddress(words[i])
  {
    CollectAllPointwise(ParseAddress, words);
  }

  lemma CollectAllPointwise<T>(f: T -> Option<nat>, xs: seq<T>)
    ensures CollectAll(f, xs).Some? <==> forall i :: 0 <= i < |xs| ==> f(xs[i]).Some?
    ensures CollectAll(f, xs).Some? ==>
              |CollectAll(f, xs).value| == |xs| && forall i :: 0 <= i < |xs| ==> Some(CollectAll(f, xs).value[i]) == f(xs[i])
  {
    if forall i :: 0 <= i < |xs| ==> f(xs[i]).Some? {
      CollectAllValues(f, xs);
    } else {
      var k :| 0 <= k < |xs| && f(xs[k]).None?;
      CollectAllFails(f, xs, k);
    }
  }

  /** One missing value fails the whole collection. */
  lemma {:induction false} CollectAllFails<T>(f: T -> Option<nat>, xs: seq<T>, k: nat)
    requires k < |xs| && f(xs[k]).None?
    ensures CollectAll(f, xs).None?
  {
    if k > 0 {
      assert xs[1..][k - 1] == xs[k];
      CollectAllFails(f, xs[1..], k - 1);
    }
  }

  /** When every value is present, the collection holds them in order. */
  lemma {:induction false} CollectAllValues<T>(f: T -> Option<nat>, xs: seq<T>)
    requires forall i :: 0 <= i < |xs| ==> f(xs[i]).Some?
    ensures CollectAll(f, xs).Some? && |CollectAll(f, xs).value| == |xs|
    ensures forall i :: 0 <= i < |xs| ==> Some(CollectAll(f, xs).value[i]) == f(xs[i])
  {
    if xs != [] {
      var tail := xs[1..];
      assert forall i :: 0 <= i < |tail| ==> tail[i] == xs[i + 1];
      CollectAllValues(f, tail);
      var a, rest := f(xs[0]).value, CollectAll(f, tail).value;
      assert CollectAll(f, xs).value == [a] + rest;
      forall i | 0 < i < |xs|
        ensures Some(([a] + rest)[i]) == f(xs[i])
      {
        assert ([a] + rest)[i] == rest[i - 1];
      }
    }
  }

  function Reverse<T>(s: seq<T>): (r: seq<T>)
    ensures |r| == |s|
    ensures forall i :: 0 <= i < |s| ==> r[i] == s[|s| - 1 - i]
  {
    seq(|s|, i requires 0 <= i < |s| => s[|s| - 1 - i])
  }

  lemma ReverseReverse<T>(s: seq<T>)
    ensures Reverse(Reverse(s)) == s
  {
    assert forall i :: 0 <= i < |s| ==> Reverse(Reverse(s))[i] == s[i];
  }

  /** How one line's words change the state. */
  function Step(words: seq<string>, rate: nat, st: State): Result<State, ParseError>
  {
    if IsStackLine(words) then
      if st.pending.Some? then Failure(StackWithoutWeight)
      else match ParseAddresses(words[1..])
        case None => Failure(BadAddress)
        case Some(addrs) => Success(State(Some(Reverse(addrs)), st.stacks))
    else if IsWeightLine(words) && st.pending.Some? then
      match ParseUsize(TrimEndMatches(words[1], ':'), 10)
      case None => Failure(BadSampleCount)
      case Some(objs) =>
        match ParseUsize(words[2], 10)
        case None => Failure(BadSampleCount)
        case Some(bytes) =>
          Success(State(None, st.stacks + [WeightedStack(st.pending.value, Sample(objs, bytes, rate))]))
    else Success(st)
  }

  /** Every line's words. */
  function Tokenize(lines: seq<string>): (r: seq<seq<string>>)
    ensures |r| == |lines|
  {
    if lines == [] then [] else [Words(lines[0])] + Tokenize(lines[1..])
  }

  lemma TokenizeFrom(lines: seq<string>, i: nat)
    requires i < |lines|
    ensures Tokenize(lines[i..]) == [Words(lines[i])] + Tokenize(lines[i + 1..])
  {
    assert lines[i..][1..] == lines[i + 1..];
  }

  /** The lines after the header, given by their words, one step each, stopping at the first error. */
  function Run(lineWords: seq<seq<string>>, rate: nat, st: State): Result<State, ParseError>
  {
    if lineWords == [] then Success(st)
    else match Step(lineWords[0], rate, st)
      case Failure(e) => Failure(e)
      case Success(next) => Run(lineWords[1..], rate, next)
  }

  /** What `parse_jeheap` returns for a file with these lines. */
  function Parse(lines: seq<string>): Result<StackProfile, ParseError>
  {
    if lines == [] then Failure(EmptyFile)
    else match SamplingRate(lines[0])
      case None => Failure(BadSamplingRate)
      case Some(rate) =>
        match Run(Tokenize(lines[1..]), rate, State(None, []))
        case Failure(e) => Failure(e)
        case Success(st) =>
          if st.pending.Some? then Failure(StackWithoutWeight) else Success(StackProfile(st.stacks))
  }

  /** The addresses of a stack line, parsed one word at a time. */
  method CollectAddresses(words: seq<string>) returns (r: Option<seq<nat>>)
    ensures r == ParseAddresses(words)
  {
    var addrs: seq<nat> := [];
    assert words[0..] == words;
    assert Prepend([], ParseAddresses(words)) == ParseAddresses(words) by {
      if ParseAddresses(words).Some? {
        assert [] + ParseAddresses(words).value == ParseAddresses(words).value;
      }
    }
    for i := 0 to |words|
      invariant ParseAddresses(words) == Prepend(addrs, ParseAddresses(words[i..]))
    {
      assert words[i..][1..] == words[i + 1..];
      var a := ParseAddress(words[i]);
      if a.None? {
        return None;
      }
      PrependPrepend(addrs, [a.value], ParseAddresses(words[i + 1..]));
      addrs := addrs + [a.value];
    }
    assert words[|words|..] == [];
    assert addrs + [] == addrs;
    return Some(addrs);
  }

  /** `Vec::reverse`: swaps the two ends inwards. */
  method ReverseInPlace(a: array<nat>)
    modifies a
    ensures a[..] == Reverse(old(a[..]))
  {
    var lo, hi := 0, a.Length;
    while lo + 1 < hi
      invariant 0 <= lo <= hi <= a.Length && lo + hi == a.Length
      invariant forall k :: 0 <= k < lo ==> a[k] == old(a[a.Length - 1 - k]) && a[a.Length - 1 - k] == old(a[k])
      invariant forall k :: lo <= k < hi ==> a[k] == old(a[k])
    {
      a[lo], a[hi - 1] := a[hi - 1], a[lo];
      lo, hi := lo + 1, hi - 1;
    }
  }

  /** The addresses in a fresh vector, reversed in place. */
  method Reversed(addrs: seq<nat>) returns (r: seq<nat>)
    ensures r == Reverse(addrs)
  {
    var buf := new nat[|addrs|](k requires 0 <= k < |addrs| => addrs[k]);
    assert buf[..] == addrs;
    ReverseInPlace(buf);
    r := buf[..];
  }

  /** The body of `parse_jeheap`'s loop: one line's words against the waiting stack and the profile. */
  method ProcessLine(words: seq<string>, rate: nat, curStack: Option<seq<nat>>, profile: seq<WeightedStack>)
    returns (r: Result<State, ParseError>)
    ensures r == Step(words, rate, State(curStack, profile))
  {
    var cur, stacks := curStack, profile;
    if |words| > 0 && words[0] == "@" {
      if cur.Some? {
        return Failure(StackWithoutWeight);
      }
      var addrs := CollectAddresses(words[1..]);
      if addrs.None? {
        return Failure(BadAddress);
      }
      var reversed := Reversed(addrs.value);
      cur := Some(reversed);
    }
    if |words| > 2 && words[0] == "t*:" {
      if cur.Some? {
        var addrs := cur.value;
        cur := None;
        var objs := ParseUsize(TrimEndMatches(words[1], ':'), 10);
        if objs.None? {
          return Failure(BadSampleCount);
        }
        var bytes := ParseUsize(words[2], 10);
        if bytes.None? {
          return Failure(BadSampleCount);
        }
        stacks := stacks + [WeightedStack(addrs, Sample(objs.value, bytes.value, rate))];
      }
    }
    return Success(State(cur, stacks));
  }

  /** `parse_jeheap`, line by line. */
  method ParseJeheap(lines: seq<string>) returns (r: Result<StackProfile, ParseError>)
    ensures r == Parse(lines)
  {
    if |lines| == 0 {
      return Failure(EmptyFile);
    }
    var rate := ParseUsize(TrimStartMatches(lines[0], HeaderPrefix), 10);
    if rate.None? {
      return Failure(BadSamplingRate);
    }
    var curStack: Option<seq<nat>> := None;
    var profile: seq<WeightedStack> := [];
    var i := 1;
    while i < |lines|
      invariant 1 <= i <= |lines|
      invariant Run(Tokenize(lines[1..]), rate.value, State(None, []))
                == Run(Tokenize(lines[i..]), rate.value, State(curStack, profile))
    {
      TokenizeFrom(lines, i);
      var step := ProcessLine(Words(lines[i]), rate.value, curStack, profile);
      if step.Failure? {
        return Failure(step.error);
      }
      curStack, profile := step.value.pending, step.value.stacks;
      i := i + 1;
    }
    if curStack.Some? {
      return Failure(StackWithoutWeight);
    }
    return Success(StackProfile(profile));
  }
}
