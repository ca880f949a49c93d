/**
 * A whole parse: getopt_long called until it returns -1, against the grammar of a command line.
 * The parse ends exactly when no scanned word gets stuck; it then leaves a stable partition.
 */
module GetoptParse {
  import opened Options
  import opened GetoptLex
  import opened GetoptSpec

  // ----- the grammar -----

  /**
   * How many words the option word whose unread letters are `place` spans, itself included; `rest` are
   * the words behind it. None if the word gets stuck: a cluster that ends in a lone `-`, such as `-a-`.
   */
  function Span(m: Machine, place: string, rest: seq<string>): (n: Option<nat>)
    requires m.Valid()
    requires place != ""
    ensures n.Some? ==> 1 <= n.value <= 1 + |rest|
    decreases |place|
  {
    match m.lex(place, rest)
    case Leave(_) => Span(m, place[1..], rest)
    case Take(n, _, _) => Some(n)
    case Malformed => None
  }

  datatype Split = Split(options: seq<string>, operands: seq<string>) | Stuck

  /** Options with their arguments and the operands, each in order; `--` ends the options. */
  function Partition(m: Machine, words: seq<string>): Split
    requires m.Valid()
    decreases |words|
  {
    if words == [] then Split([], [])
    else if !IsOptionWord(words[0]) then
      match Partition(m, words[1..])
      case Stuck => Stuck
      case Split(opts, nons) => Split(opts, [words[0]] + nons)
    else if words[0] == "--" then Split(["--"], words[1..])
    else
      match Span(m, words[0][1..], words[1..])
      case None => Stuck
      case Some(n) =>
        match Partition(m, words[n..])
        case Stuck => Stuck
        case Split(opts, nons) => Split(words[..n] + opts, nons)
  }

  /** The words are a shuffle of two lists that keeps the order of each. */
  ghost predicate Interleaves(words: seq<string>, a: seq<string>, b: seq<string>)
    decreases |words|
  {
    if words == [] then a == [] && b == []
    else
      || (a != [] && a[0] == words[0] && Interleaves(words[1..], a[1..], b))
      || (b != [] && b[0] == words[0] && Interleaves(words[1..], a, b[1..]))
  }

  lemma {:induction false} PrependOptions(words: seq<string>, a: seq<string>, b: seq<string>, n: nat)
    requires n <= |words| && Interleaves(words[n..], a, b)
    ensures Interleaves(words, words[..n] + a, b)
    decreases n
  {
    if n == 0 {
      assert words[..0] + a == a && words[0..] == words;
    } else {
      assert words[1..][n - 1..] == words[n..];
      PrependOptions(words[1..], a, b, n - 1);
      assert (words[..n] + a)[1..] == words[1..][..n - 1] + a;
    }
  }

  lemma {:induction false} OperandsOnly(words: seq<string>)
    ensures Interleaves(words, [], words)
    decreases |words|
  {
    if words != [] {
      OperandsOnly(words[1..]);
    }
  }

  /** Nothing is lost, invented or reordered within its kind. */
  lemma {:induction false} PartitionIsStable(m: Machine, words: seq<string>)
    requires m.Valid() && Partition(m, words).Split?
    ensures var p := Partition(m, words); Interleaves(words, p.options, p.operands)
    decreases |words|
  {
    if words == [] {
    } else if !IsOptionWord(words[0]) {
      PartitionIsStable(m, words[1..]);
      var p := Partition(m, words);
      assert p.operands[1..] == Partition(m, words[1..]).operands;
    } else if words[0] == "--" {
      OperandsOnly(words[1..]);
    } else {
      var n := Span(m, words[0][1..], words[1..]).value;
      PartitionIsStable(m, words[n..]);
      PrependOptions(words, Partition(m, words[n..]).options, Partition(m, words[n..]).operands, n);
    }
  }

  function Shift(k: Option<nat>, n: nat): Option<nat> {
    if k.Some? then Some(k.value + n) else None
  }

  /** Where the `--` stands that ends the options; one that is an option's argument does not. */
  function ClosingAt(m: Machine, words: seq<string>): (k: Option<nat>)
    requires m.Valid()
    ensures k.Some? ==> k.value < |words| && words[k.value] == "--"
    decreases |words|
  {
    if words == [] then None
    else if !IsOptionWord(words[0]) then Shift(ClosingAt(m, words[1..]), 1)
    else if words[0] == "--" then Some(0)
    else
      match Span(m, words[0][1..], words[1..])
      case None => None
      case Some(n) => Shift(ClosingAt(m, words[n..]), n)
  }

  /** The operands of p are front, none of which looks like an option, and then all words behind position k. */
  predicate ClosedAt(words: seq<string>, p: Split, k: nat)
    requires p.Split?
  {
    && k < |words| && p.options != [] && p.options[|p.options| - 1] == words[k] == "--"
    && |p.options| + |p.operands| == |words| && |words| - k - 1 <= |p.operands|
    && (var front := |p.operands| - (|words| - k - 1);
        && p.operands[front..] == words[k + 1..]
        && forall i :: 0 <= i < front ==> !IsOptionWord(p.operands[i]))
  }

  lemma ClosedOperand(words: seq<string>, p: Split, k: nat)
    requires words != [] && !IsOptionWord(words[0]) && p.Split? && ClosedAt(words[1..], p, k)
    ensures ClosedAt(words, Split(p.options, [words[0]] + p.operands), k + 1)
  {
    var r, front := [words[0]] + p.operands, |p.operands| - (|words[1..]| - k - 1);
    assert r[front + 1..] == p.operands[front..] && words[1..][k + 1..] == words[k + 2..];
    assert forall i :: 1 <= i < front + 1 ==> r[i] == p.operands[i - 1];
  }

  lemma ClosedOption(words: seq<string>, n: nat, p: Split, k: nat)
    requires n <= |words| && p.Split? && ClosedAt(words[n..], p, k)
    ensures ClosedAt(words, Split(words[..n] + p.options, p.operands), k + n)
  {
    assert words[n..][k + 1..] == words[k + n + 1..];
  }

  /** Operands look like operands, except those behind the `--` that ends the options. */
  lemma {:induction false} OperandsLookLikeOperands(m: Machine, words: seq<string>)
    requires m.Valid() && Partition(m, words).Split?
    ensures var p := Partition(m, words);
            match ClosingAt(m, words)
            case None => forall w :: w in p.operands ==> !IsOptionWord(w)
            case Some(k) => ClosedAt(words, p, k)
    decreases |words|
  {
    if words == [] {
    } else if !IsOptionWord(words[0]) {
      OperandsLookLikeOperands(m, words[1..]);
      if ClosingAt(m, words[1..]).Some? {
        ClosedOperand(words, Partition(m, words[1..]), ClosingAt(m, words[1..]).value);
      }
    } else if words[0] != "--" {
      var n := Span(m, words[0][1..], words[1..]).value;
      OperandsLookLikeOperands(m, words[n..]);
      if ClosingAt(m, words[n..]).Some? {
        ClosedOption(words, n, Partition(m, words[n..]), ClosingAt(m, words[n..]).value);
      }
    }
  }

  // ----- repeated calls -----

  /** The state in which up to `fuel` calls leave the scanner, if one of them returns -1. */
  function Drive(m: Machine, s: Scanner, fuel: nat): Option<Scanner>
    requires m.Valid()
    requires Ready(s)
    decreases fuel
  {
    if fuel == 0 then None
    else
      var (t, r) := Call(m, s);
      if r == Done then Some(t) else Drive(m, t, fuel - 1)
  }

  function Called(m: Machine, s: Scanner): Scanner
    requires m.Valid() && Ready(s)
  {
    Call(m, s).0
  }

  predicate Ended(m: Machine, s: Scanner)
    requires m.Valid() && Ready(s)
  {
    Call(m, s).1 == Done
  }

  /** The states that successive calls go through; the last call, and no other, returns -1. */
  ghost predicate IsTrace(m: Machine, trace: seq<Scanner>)
    requires m.Valid()
  {
    && |trace| >= 2
    && (forall i :: 0 <= i < |trace| - 1 ==> Ready(trace[i]))
    && (forall i :: 0 <= i < |trace| - 1 ==> trace[i + 1] == Called(m, trace[i]))
    && (forall i :: 0 <= i < |trace| - 1 ==> (Ended(m, trace[i]) <==> i == |trace| - 2))
  }

  lemma {:induction false} TraceOf(m: Machine, s: Scanner, fuel: nat) returns (trace: seq<Scanner>)
    requires m.Valid() && Ready(s) && Drive(m, s, fuel).Some?
    ensures IsTrace(m, trace) && trace[0] == s && trace[|trace| - 1] == Drive(m, s, fuel).value
    decreases fuel
  {
    if Ended(m, s) {
      trace := [s, Called(m, s)];
    } else {
      var rest := TraceOf(m, Called(m, s), fuel - 1);
      trace := [s] + rest;
      assert forall i :: 1 <= i < |trace| ==> trace[i] == rest[i - 1];
    }
  }

  /** The options before `optind`, wherever the skipped operands stand. */
  function OptionsSoFar(s: Scanner): seq<string>
    requires s.Valid()
  {
    if s.start == -1 then s.argv[1..s.optind]
    else if s.end == -1 then s.argv[1..s.start]
    else s.argv[1..s.start] + s.argv[s.end..s.optind]
  }

  function OperandsSoFar(s: Scanner): seq<string>
    requires s.Valid()
  {
    if s.start == -1 then []
    else if s.end == -1 then s.argv[s.start..s.optind]
    else s.argv[s.start..s.end]
  }

  /** Between words, with no word in progress. */
  predicate AtWord(s: Scanner) {
    s.Valid() && s.place == "" && s.optarg == None
  }

  lemma SkipEffect(s: Scanner)
    requires AtWord(s) && s.optind < |s.argv| && !IsOptionWord(s.argv[s.optind])
    ensures var t := Skip(s);
            && AtWord(t) && t.optind == s.optind + 1 && |t.argv| == |s.argv| && t.argv[0] == s.argv[0]
            && t.argv[t.optind..] == s.argv[t.optind..]
            && OptionsSoFar(t) == OptionsSoFar(s)
            && OperandsSoFar(t) == OperandsSoFar(s) + [s.argv[s.optind]]
  {
  }

  lemma MarkEndEffect(s: Scanner)
    requires AtWord(s) && s.optind < |s.argv| && IsOptionWord(s.argv[s.optind])
    ensures var t := MarkEnd(s);
            && t.Valid() && t.optind == s.optind && t.argv == s.argv && t.start == s.start
            && (t.start != -1 ==> t.end != -1)
            && OptionsSoFar(t) == OptionsSoFar(s) && OperandsSoFar(t) == OperandsSoFar(s)
  {
  }

  lemma FinishEffect(s: Scanner)
    requires s.Valid() && (s.start == -1 || s.end != -1 || s.optind == |s.argv|)
    ensures var t := Finish(s);
            && t.argv == s.argv[..1] + OptionsSoFar(s) + OperandsSoFar(s) + s.argv[s.optind..]
            && t.optind == 1 + |OptionsSoFar(s)|
  {
  }

  // ----- how calls follow the words -----

  /** An operand is stepped over inside a call. */
  lemma DriveSkip(m: Machine, s: Scanner, fuel: nat)
    requires m.Valid()
    requires AtWord(s) && m.mode == Permuting && s.optind < |s.argv| && !IsOptionWord(s.argv[s.optind])
    ensures AtWord(Skip(s)) && Drive(m, s, fuel) == Drive(m, Skip(s), fuel)
  {
    SkipEffect(s);
  }

  /** The scanner at the first letter of the option word it stands at. */
  function Begin(s: Scanner): (t: Scanner)
    requires AtWord(s) && s.optind < |s.argv| && IsOptionWord(s.argv[s.optind])
    ensures t.Valid()
  {
    MarkEnd(s).(place := s.argv[s.optind][1..])
  }

  lemma DriveBegin(m: Machine, s: Scanner, fuel: nat)
    requires m.Valid()
    requires AtWord(s) && s.optind < |s.argv| && IsOptionWord(s.argv[s.optind]) && s.argv[s.optind] != "--"
    ensures Drive(m, s, fuel) == Drive(m, Begin(s), fuel)
  {
  }

  /** Behind the n words that start with the current one. */
  function After(s: Scanner, n: nat): Scanner {
    s.(optind := s.optind + n, place := "", optarg := None)
  }

  /** Calls look at nothing but the position; what the last one returned does not matter. */
  function Forget(s: Scanner): Scanner {
    s.(optarg := None)
  }

  /** What one call does inside a word, in terms of the word's span. */
  lemma ScanSpan(m: Machine, s: Scanner)
    requires m.Valid()
    requires s.Valid() && s.place != ""
    ensures var n := Span(m, s.place, s.argv[s.optind + 1..]);
            var t := Forget(Call(m, s).0);
            && Call(m, s).1 != Done
            && (if s.place == "-" then n == None && t == Forget(s.(place := ""))
                else if t.place == "" then n.Some? && t == After(s, n.value)
                else && |s.place| > 1 && t == Forget(s.(place := s.place[1..]))
                     && n == Span(m, s.place[1..], s.argv[s.optind + 1..]))
  {
  }

  lemma DriveForgets(m: Machine, s: Scanner, fuel: nat)
    requires m.Valid()
    requires s.Valid()
    ensures Drive(m, s, fuel) == Drive(m, Forget(s), fuel)
  {
  }

  /** Repeated calls, starting in s, come to an end and leave the scanner in t. */
  ghost predicate Ends(m: Machine, s: Scanner, t: Scanner)
    requires m.Valid()
    requires Ready(s)
  {
    exists fuel: nat :: Drive(m, s, fuel) == Some(t)
  }

  lemma EndsCall(m: Machine, s: Scanner, t: Scanner)
    requires m.Valid()
    requires s.Valid() && Call(m, s).1 != Done && Ends(m, Forget(Call(m, s).0), t)
    ensures Ends(m, s, t)
  {
    var u := Call(m, s).0;
    var fuel: nat :| Drive(m, Forget(u), fuel) == Some(t);
    DriveForgets(m, u, fuel);
    assert Drive(m, s, fuel + 1) == Some(t);
  }

  lemma EndsSkip(m: Machine, s: Scanner, t: Scanner)
    requires m.Valid()
    requires AtWord(s) && m.mode == Permuting && s.optind < |s.argv| && !IsOptionWord(s.argv[s.optind])
    requires AtWord(Skip(s)) && Ends(m, Skip(s), t)
    ensures Ends(m, s, t)
  {
    var fuel: nat :| Drive(m, Skip(s), fuel) == Some(t);
    DriveSkip(m, s, fuel);
  }

  lemma EndsBegin(m: Machine, s: Scanner, t: Scanner)
    requires m.Valid()
    requires AtWord(s) && s.optind < |s.argv| && IsOptionWord(s.argv[s.optind]) && s.argv[s.optind] != "--"
    requires Ends(m, Begin(s), t)
    ensures Ends(m, s, t)
  {
    var fuel: nat :| Drive(m, Begin(s), fuel) == Some(t);
    DriveBegin(m, s, fuel);
  }

  /** Finitely many calls take the scanner over a word that does not get stuck. */
  lemma {:induction false} EndsWord(m: Machine, s: Scanner, n: nat, t: Scanner)
    requires m.Valid()
    requires s.Valid() && s.place != "" && Span(m, s.place, s.argv[s.optind + 1..]) == Some(n)
    requires AtWord(After(s, n)) && Ends(m, After(s, n), t)
    ensures Ends(m, s, t)
    decreases |s.place|
  {
    ScanSpan(m, s);
    var u := Forget(Call(m, s).0);
    if u.place != "" {
      assert After(u, n) == After(s, n);
      EndsWord(m, u, n, t);
    }
    EndsCall(m, s, t);
  }

  lemma EndsOption(m: Machine, s: Scanner, n: nat, t: Scanner)
    requires m.Valid() && AtWord(s) && s.optind < |s.argv|
    requires IsOptionWord(s.argv[s.optind]) && s.argv[s.optind] != "--"
    requires Span(m, s.argv[s.optind][1..], s.argv[s.optind + 1..]) == Some(n)
    requires AtWord(After(Begin(s), n)) && Ends(m, After(Begin(s), n), t)
    ensures Ends(m, s, t)
  {
    EndsWord(m, Begin(s), n, t);
    EndsBegin(m, s, t);
  }

  /** The state in which a parse that stands in s must end if the words left split into p. */
  function Goal(s: Scanner, p: Split): Scanner
    requires s.Valid() && p.Split?
  {
    Scanner(s.argv[..1] + (OptionsSoFar(s) + p.options) + (OperandsSoFar(s) + p.operands),
            1 + |OptionsSoFar(s)| + |p.options|, false, "", -1, -1, None)
  }

  lemma GoalEnd(s: Scanner)
    requires AtWord(s) && s.optind == |s.argv|
    ensures Finish(s) == Goal(s, Split([], []))
  {
    FinishEffect(s);
  }

  lemma GoalSkip(s: Scanner, p: Split)
    requires AtWord(s) && s.optind < |s.argv| && !IsOptionWord(s.argv[s.optind]) && p.Split?
    ensures AtWord(Skip(s)) && Goal(Skip(s), p) == Goal(s, Split(p.options, [s.argv[s.optind]] + p.operands))
  {
    SkipEffect(s);
  }

  lemma GoalDashes(s: Scanner)
    requires AtWord(s) && s.optind < |s.argv| && s.argv[s.optind] == "--"
    ensures MarkEnd(s).Valid()
    ensures Finish(MarkEnd(s).(optind := s.optind + 1)) == Goal(s, Split(["--"], s.argv[s.optind + 1..]))
  {
    MarkEndEffect(s);
    var t := MarkEnd(s).(optind := s.optind + 1);
    FinishEffect(t);
    assert OptionsSoFar(t) == OptionsSoFar(s) + ["--"];
  }

  /** The n words from the current one on join the options. */
  lemma WordOptions(s: Scanner, n: nat)
    requires AtWord(s) && 1 <= n <= |s.argv| - s.optind && IsOptionWord(s.argv[s.optind])
    ensures var t := After(Begin(s), n);
            && AtWord(t) && t.argv[t.optind..] == s.argv[s.optind..][n..]
            && OptionsSoFar(t) == OptionsSoFar(s) + s.argv[s.optind..][..n]
            && OperandsSoFar(t) == OperandsSoFar(s)
  {
    MarkEndEffect(s);
    var t := After(Begin(s), n);
    var i, j := s.optind, s.optind + n;
    assert s.argv[i..][..n] == s.argv[i..j];
    if t.start == -1 {
      assert s.argv[1..j] == s.argv[1..i] + s.argv[i..j];
    } else {
      AppendSplit(s.argv, s.argv[1..t.start], t.end, i, j);
    }
  }

  lemma AppendSplit(v: seq<string>, front: seq<string>, h: nat, i: nat, j: nat)
    requires h <= i <= j <= |v|
    ensures front + v[h..j] == (front + v[h..i]) + v[i..j]
  {
    assert v[h..j] == v[h..i] + v[i..j];
  }

  lemma GoalWord(s: Scanner, n: nat, p: Split)
    requires AtWord(s) && 1 <= n <= |s.argv| - s.optind && IsOptionWord(s.argv[s.optind]) && p.Split?
    ensures AtWord(After(Begin(s), n))
    ensures Goal(After(Begin(s), n), p) == Goal(s, Split(s.argv[s.optind..][..n] + p.options, p.operands))
  {
    WordOptions(s, n);
    var words := s.argv[s.optind..][..n];
    assert (OptionsSoFar(s) + words) + p.options == OptionsSoFar(s) + (words + p.options);
  }

  lemma {:induction false} WordsParse(m: Machine, s: Scanner)
    requires m.Valid()
    requires AtWord(s) && m.mode == Permuting && s.end != s.optind
    requires Partition(m, s.argv[s.optind..]).Split?
    ensures Ends(m, s, Goal(s, Partition(m, s.argv[s.optind..])))
    decreases |s.argv| - s.optind, 1
  {
    var words := s.argv[s.optind..];
    var t := Goal(s, Partition(m, words));
    if words == [] {
      GoalEnd(s);
      assert Drive(m, s, 1) == Some(t);
    } else if !IsOptionWord(words[0]) {
      GoalSkip(s, Partition(m, words[1..]));
      SkipEffect(s);
      assert Skip(s).argv[Skip(s).optind..] == words[1..];
      WordsParse(m, Skip(s));
      EndsSkip(m, s, t);
    } else if words[0] == "--" {
      GoalDashes(s);
      assert Drive(m, s, 1) == Some(t);
    } else {
      OptionParses(m, s);
    }
  }

  lemma {:induction false} OptionParses(m: Machine, s: Scanner)
    requires m.Valid()
    requires AtWord(s) && m.mode == Permuting && s.optind < |s.argv|
    requires IsOptionWord(s.argv[s.optind]) && s.argv[s.optind] != "--"
    requires Partition(m, s.argv[s.optind..]).Split?
    ensures Ends(m, s, Goal(s, Partition(m, s.argv[s.optind..])))
    decreases |s.argv| - s.optind, 0
  {
    var words := s.argv[s.optind..];
    var t := Goal(s, Partition(m, words));
    assert words[1..] == s.argv[s.optind + 1..];
    var n := Span(m, words[0][1..], words[1..]).value;
    GoalWord(s, n, Partition(m, words[n..]));
    WordOptions(s, n);
    WordsParse(m, After(Begin(s), n));
    EndsOption(m, s, n, t);
  }

  // ----- a stuck word -----

  lemma DriveCall(m: Machine, s: Scanner, fuel: nat)
    requires m.Valid() && s.Valid() && fuel > 0 && Call(m, s).1 != Done
    ensures Drive(m, s, fuel) == Drive(m, Forget(Call(m, s).0), fuel - 1)
  {
    DriveForgets(m, Call(m, s).0, fuel - 1);
  }

  /** A call inside a stuck word stays in the word, or goes back to its beginning. */
  lemma StuckCall(m: Machine, s: Scanner)
    requires m.Valid() && s.Valid() && s.place != ""
    requires Span(m, s.place, s.argv[s.optind + 1..]) == None
    ensures Call(m, s).1 != Done
    ensures var t := Forget(Call(m, s).0);
            && t.Valid() && t.argv == s.argv && t.optind == s.optind
            && (t.place != "" ==> Span(m, t.place, t.argv[t.optind + 1..]) == None)
  {
    ScanSpan(m, s);
  }

  /** The scanner is inside a word that gets stuck. */
  ghost predicate StuckIn(m: Machine, s: Scanner)
    requires m.Valid()
  {
    && s.Valid() && s.place != "" && s.argv[s.optind] != "--"
    && Span(m, s.place, s.argv[s.optind + 1..]) == None
    && Span(m, s.argv[s.optind][1..], s.argv[s.optind + 1..]) == None
  }

  lemma StuckNext(m: Machine, s: Scanner, fuel: nat) returns (u: Scanner)
    requires m.Valid() && StuckIn(m, s) && fuel > 0
    ensures StuckIn(m, u) && Drive(m, s, fuel) == Drive(m, u, fuel - 1)
  {
    StuckCall(m, s);
    DriveCall(m, s, fuel);
    u := Forget(Call(m, s).0);
    if u.place == "" {
      DriveBegin(m, u, fuel - 1);
      u := Begin(u);
    }
  }

  /** No number of calls ends the parse from there. */
  lemma {:induction false} StuckForever(m: Machine, s: Scanner, fuel: nat)
    requires m.Valid() && StuckIn(m, s)
    ensures Drive(m, s, fuel) == None
    decreases fuel
  {
    if fuel > 0 {
      var u := StuckNext(m, s, fuel);
      StuckForever(m, u, fuel - 1);
    }
  }

  lemma StuckAtWord(m: Machine, s: Scanner, t: Scanner)
    requires m.Valid() && AtWord(s) && s.optind < |s.argv|
    requires IsOptionWord(s.argv[s.optind]) && s.argv[s.optind] != "--"
    requires Span(m, s.argv[s.optind][1..], s.argv[s.optind + 1..]) == None
    ensures !Ends(m, s, t)
  {
    forall fuel: nat ensures Drive(m, s, fuel) == None {
      DriveBegin(m, s, fuel);
      StuckForever(m, Begin(s), fuel);
    }
  }

  /** A parse that ends from s has ended from where finitely many of its calls lead. */
  lemma {:induction false} EndsOnlyThroughWord(m: Machine, s: Scanner, n: nat, t: Scanner)
    requires m.Valid() && s.Valid() && s.place != "" && Span(m, s.place, s.argv[s.optind + 1..]) == Some(n)
    requires Ends(m, s, t)
    ensures AtWord(After(s, n)) && Ends(m, After(s, n), t)
    decreases |s.place|
  {
    ScanSpan(m, s);
    var fuel: nat :| Drive(m, s, fuel) == Some(t);
    var u := Forget(Call(m, s).0);
    DriveCall(m, s, fuel);
    assert Ends(m, u, t);
    if u.place != "" {
      assert After(u, n) == After(s, n);
      EndsOnlyThroughWord(m, u, n, t);
    }
  }

  lemma EndsOnlyThroughOption(m: Machine, s: Scanner, n: nat, t: Scanner)
    requires m.Valid() && AtWord(s) && s.optind < |s.argv|
    requires IsOptionWord(s.argv[s.optind]) && s.argv[s.optind] != "--"
    requires Span(m, s.argv[s.optind][1..], s.argv[s.optind + 1..]) == Some(n) && Ends(m, s, t)
    ensures AtWord(After(Begin(s), n)) && Ends(m, After(Begin(s), n), t)
  {
    var fuel: nat :| Drive(m, s, fuel) == Some(t);
    DriveBegin(m, s, fuel);
    EndsOnlyThroughWord(m, Begin(s), n, t);
  }

  lemma EndsOnlyThroughSkip(m: Machine, s: Scanner, t: Scanner)
    requires m.Valid() && AtWord(s) && m.mode == Permuting
    requires s.optind < |s.argv| && !IsOptionWord(s.argv[s.optind]) && Ends(m, s, t)
    ensures AtWord(Skip(s)) && Ends(m, Skip(s), t)
  {
    var fuel: nat :| Drive(m, s, fuel) == Some(t);
    DriveSkip(m, s, fuel);
  }

  lemma {:induction false} StuckNeverEnds(m: Machine, s: Scanner, t: Scanner)
    requires m.Valid() && AtWord(s) && m.mode == Permuting && s.end != s.optind
    requires Partition(m, s.argv[s.optind..]) == Stuck
    ensures !Ends(m, s, t)
    decreases |s.argv| - s.optind
  {
    var words := s.argv[s.optind..];
    assert words[1..] == s.argv[s.optind + 1..];
    if !IsOptionWord(words[0]) {
      SkipEffect(s);
      assert Skip(s).argv[Skip(s).optind..] == words[1..];
      StuckNeverEnds(m, Skip(s), t);
      if Ends(m, s, t) {
        EndsOnlyThroughSkip(m, s, t);
      }
    } else if Span(m, words[0][1..], words[1..]) == None {
      StuckAtWord(m, s, t);
    } else {
      var n := Span(m, words[0][1..], words[1..]).value;
      WordOptions(s, n);
      StuckNeverEnds(m, After(Begin(s), n), t);
      if Ends(m, s, t) {
        EndsOnlyThroughOption(m, s, n, t);
      }
    }
  }

  // ----- whole parses -----

  /** The first word of a fresh parse. */
  lemma FreshStart(m: Machine, s: Scanner, fuel: nat)
    requires m.Valid() && s.optind == 0 && |s.argv| >= 1
    ensures AtWord(Forget(Reset(s)))
    ensures Drive(m, s, fuel) == Drive(m, Forget(Reset(s)), fuel)
  {
  }

  /**
   * getopt_long called until it returns -1, from any stale state with optind zero: the vector ends as the
   * program name, the options with their arguments, then the operands, with optind on the first operand.
   */
  lemma ParseIsStablePartition(cfg: Config, s: Scanner)
    requires s.optind == 0 && |s.argv| >= 1 && cfg.Permutes()
    requires Partition(MachineOf(cfg), s.argv[1..]).Split?
    ensures var p := Partition(MachineOf(cfg), s.argv[1..]);
            && Interleaves(s.argv[1..], p.options, p.operands)
            && Ends(MachineOf(cfg), s, Scanner([s.argv[0]] + p.options + p.operands, 1 + |p.options|,
                                               false, "", -1, -1, None))
  {
    var m := MachineOf(cfg);
    var p := Partition(m, s.argv[1..]);
    PartitionIsStable(m, s.argv[1..]);
    var t := Forget(Reset(s));
    FreshStart(m, s, 0);
    WordsParse(m, t);
    var goal := Goal(t, p);
    assert goal.argv == [s.argv[0]] + p.options + p.operands;
    var fuel: nat :| Drive(m, t, fuel) == Some(goal);
    FreshStart(m, s, fuel);
  }

  /** The calls come to an end exactly when no scanned word gets stuck. */
  lemma ParseEndsIff(cfg: Config, s: Scanner)
    requires s.optind == 0 && |s.argv| >= 1 && cfg.Permutes()
    ensures (exists t :: Ends(MachineOf(cfg), s, t)) <==> Partition(MachineOf(cfg), s.argv[1..]).Split?
  {
    var m := MachineOf(cfg);
    if Partition(m, s.argv[1..]).Split? {
      ParseIsStablePartition(cfg, s);
    } else {
      forall t ensures !Ends(m, s, t) {
        FreshStart(m, s, 0);
        StuckNeverEnds(m, Forget(Reset(s)), t);
        forall fuel: nat ensures Drive(m, s, fuel) != Some(t) {
          FreshStart(m, s, fuel);
        }
      }
    }
  }

  /** The letter at i of a word is not the last one read of it, and the scanner goes on to the next. */
  predicate GoesOn(cfg: Config, place: string, rest: seq<string>, i: nat)
    requires i < |place|
  {
    var c := place[i];
    && c != '-' && (KindOf(cfg.Options(), c).Unknown? || KindOf(cfg.Options(), c).Plain?)
    && (cfg.longOnly ==> TryLong(cfg, place[i..], rest, ShortToo(cfg, place[i..])).Miss?)
  }

  lemma GoesOnTail(cfg: Config, place: string, rest: seq<string>, i: nat)
    requires 1 <= i < |place|
    ensures GoesOn(cfg, place, rest, i) <==> GoesOn(cfg, place[1..], rest, i - 1)
  {
    assert place[1..][i - 1..] == place[i..];
  }

  /**
   * A word gets stuck exactly when it is a cluster of argument-less letters closed by a dash; with long options behind
   * a single dash, also no rest of the word may be one.
   */
  lemma {:induction false} StuckShape(cfg: Config, place: string, rest: seq<string>)
    requires place != ""
    ensures Span(MachineOf(cfg), place, rest) == None <==>
            place[|place| - 1] == '-' && forall i :: 0 <= i < |place| - 1 ==> GoesOn(cfg, place, rest, i)
    decreases |place|
  {
    if |place| > 1 {
      var tail := place[1..];
      StuckShape(cfg, tail, rest);
      assert place[0..] == place;
      if forall i :: 0 <= i < |place| - 1 ==> GoesOn(cfg, place, rest, i) {
        assert GoesOn(cfg, place, rest, 0);
      }
      forall i | 0 <= i < |tail| - 1 ensures GoesOn(cfg, tail, rest, i) <==> GoesOn(cfg, place, rest, i + 1) {
        GoesOnTail(cfg, place, rest, i + 1);
      }
      forall i | 1 <= i < |place| - 1 ensures GoesOn(cfg, place, rest, i) <==> GoesOn(cfg, tail, rest, i - 1) {
        GoesOnTail(cfg, place, rest, i);
      }
    }
  }

  /** `prog -a-` with an option string of `a` is parsed for ever. */
  lemma DashClusterLoops(t: Scanner)
    ensures !Ends(MachineOf(Config("a", [], false, false)), Scanner(["prog", "-a-"], 0, false, "", -1, -1, None), t)
  {
    var cfg := Config("a", [], false, false);
    var s := Scanner(["prog", "-a-"], 0, false, "", -1, -1, None);
    assert s.argv[1..] == ["-a-"] && "-a-"[1..] == "a-";
    StuckShape(cfg, "a-", []);
    ParseEndsIff(cfg, s);
  }
}
