/**
 * The stateful scanner itself: getopt_internal, parse_long_options and the loop of arg_parse_tagged
 * that calls them, working in place on the argument vector.
 */
module Getopt {
  import Permute
  import opened Options
  import opened GetoptLex
  import opened GetoptSpec
  import opened GetoptParse
  import opened GetoptModes

  /** The loop over the long option table. */
  method FindLong(cfg: Config, key: string, shortToo: bool) returns (m: Match)
    ensures m == Lookup(cfg, key, shortToo)
  {
    var table := cfg.longOptions;
    var match_ := -1;
    var second := false;
    var i := 0;
    while i < |table|
      invariant 0 <= i <= |table| && -1 <= match_ < i
      invariant forall j :: 0 <= j < i ==> !IsExact(table[j], key)
      invariant forall j :: 0 <= j < i && (match_ == -1 || j < match_) ==> !IsPartial(table[j], key, shortToo)
      invariant match_ != -1 ==> IsPartial(table[match_], key, shortToo)
      invariant second <==> match_ != -1 && ClashAfter(cfg, key, shortToo, match_, i)
    {
      if key <= table[i].name {
        if |table[i].name| == |key| {
          assert First(table, key, shortToo, true, 0) == i;
          return Found(i);
        }
        if !(shortToo && |key| == 1) {
          if match_ == -1 {
            match_ := i;
          } else if Clash(cfg, i, match_) {
            second := true;
          }
        }
      }
      i := i + 1;
    }
    assert First(table, key, shortToo, true, 0) == |table|;
    assert First(table, key, shortToo, false, 0) == if match_ == -1 then |table| else match_;
    if second {
      return Ambiguous;
    } else if match_ != -1 {
      return Found(match_);
    } else {
      return Missing;
    }
  }

  /** Where the key of `--key=value` ends. */
  method FindEquals(word: string) returns (n: nat)
    ensures n == |Key(word)| && n <= |word|
    ensures word[..n] == Key(word)
  {
    n := 0;
    KeyIsPrefix(word);
    while n < |word| && word[n] != '='
      invariant n <= |Key(word)|
    {
      n := n + 1;
    }
  }

  /** No scanned word gets stuck. */
  predicate Parses(cfg: Config, words: seq<string>) {
    if cfg.Permutes() then Partition(MachineOf(cfg), words).Split? else Reached(MachineOf(cfg), words).Reach?
  }

  function FinalState(cfg: Config, s: Scanner): Scanner
    requires |s.argv| >= 1 && Parses(cfg, s.argv[1..])
  {
    if cfg.Permutes() then
      var p := Partition(MachineOf(cfg), s.argv[1..]);
      Scanner([s.argv[0]] + p.options + p.operands, 1 + |p.options|, false, "", -1, -1, None)
    else Behind(s, Reached(MachineOf(cfg), s.argv[1..]).n)
  }

  lemma FinalStateIsReached(cfg: Config, s: Scanner)
    requires s.optind == 0 && |s.argv| >= 1 && Parses(cfg, s.argv[1..])
    ensures Ends(MachineOf(cfg), s, FinalState(cfg, s))
    ensures cfg.Permutes() ==>
              var p := Partition(MachineOf(cfg), s.argv[1..]); Interleaves(s.argv[1..], p.options, p.operands)
  {
    if cfg.Permutes() {
      ParseIsStablePartition(cfg, s);
    } else {
      ModeParseIff(cfg, s);
    }
  }

  class Scanning {
    var argv: array<string>
    var optind: nat
    var optreset: bool
    var place: string
    var nonoptStart: int
    var nonoptEnd: int
    var optarg: Option<string>

    ghost function State(): Scanner
      reads this, argv
    {
      Scanner(argv[..], optind, optreset, place, nonoptStart, nonoptEnd, optarg)
    }

    /** A scanner over `words`; the counters may hold anything a previous parse left. */
    constructor (words: array<string>, stale: Scanner)
      ensures argv == words && State() == stale.(argv := words[..], optind := 0)
    {
      argv, optind, optreset, place := words, 0, stale.optreset, stale.place;
      nonoptStart, nonoptEnd, optarg := stale.start, stale.end, stale.optarg;
    }

    /** parse_long_options on the text `word`; None is its -1. */
    method ParseLong(cfg: Config, word: string, shortToo: bool) returns (ret: Option<Ret>)
      requires optind < argv.Length && optarg == None
      modifies this`optind, this`optarg
      ensures var h := TryLong(cfg, word, old(argv[optind + 1..]), shortToo);
              if h.Miss? then ret == None && State() == old(State())
              else && ret == Some(h.ret)
                   && State() == old(State()).(optind := old(optind) + 1 + h.extra, optarg := h.optarg)
    {
      ghost var rest := argv[optind + 1..];
      var n := FindEquals(word);
      var found := FindLong(cfg, word[..n], shortToo);
      var hasEqual := n < |word|;
      optind := optind + 1;
      match found {
        case Ambiguous => return Some(BadCh);
        case Missing =>
          if shortToo {
            optind := optind - 1;
            return None;
          }
          return Some(BadCh);
        case Found(i) =>
          var o := cfg.longOptions[i];
          if o.hasArg == NoArgument && hasEqual {
            return Some(BadCh);
          }
          if o.hasArg != NoArgument {
            if hasEqual {
              optarg := Some(word[n + 1..]);
            } else if o.hasArg == RequiredArgument {
              if optind == argv.Length {
                return Some(BadArg);
              }
              assert argv[optind] == rest[0];
              optarg := Some(argv[optind]);
              optind := optind + 1;
            }
          }
          return Some(if o.flag != 0 then Flagged else Value(o.val));
      }
    }

    /** One call of getopt_internal after a word has been fetched: the letters in `place`. */
    method ScanWord(cfg: Config, ghost t: Step) returns (ret: Ret)
      requires State().Valid() && place != "" && optarg == None && t == WordStep(cfg, place, argv[optind + 1..])
      modifies this`optind, this`optarg, this`place
      ensures (State(), ret) == Apply(old(State()), t)
    {
      ghost var rest := argv[optind + 1..];
      if place[0] == '-' || cfg.longOnly {
        var shortToo := false;
        var word := place;
        if place[0] == '-' {
          word := place[1..];
          if word == "" {
            place := "";
            return BadArg;
          }
        } else {
          shortToo := place[0] != ':' && place[0] in cfg.Options();
        }
        var r := ParseLong(cfg, word, shortToo);
        if r.Some? {
          place := "";
          return r.value;
        }
      }
      ret := ScanLetter(cfg, rest);
    }

    /** How the option string describes a letter: strchr, then a look at the characters behind. */
    method Classify(options: string, c: char) returns (kind: Kind)
      ensures kind == KindOf(options, c)
    {
      var oli := Position(options, c);
      if c == ':' || oli == |options| {
        return Unknown;
      }
      if c == 'W' && oli + 1 < |options| && options[oli + 1] == ';' {
        return LongViaW;
      }
      if oli + 1 == |options| || options[oli + 1] != ':' {
        return Plain;
      }
      return if oli + 2 == |options| || options[oli + 2] != ':' then NeedsArg else MayHaveArg;
    }

    method ScanLetter(cfg: Config, ghost rest: seq<string>) returns (ret: Ret)
      requires State().Valid() && place != "" && optarg == None && rest == argv[optind + 1..]
      modifies this`optind, this`optarg, this`place
      ensures (State(), ret) == Apply(old(State()), ShortStep(cfg, old(place), rest))
    {
      var c := place[0];
      var kind := Classify(cfg.Options(), c);
      ghost var t := ShortStep(cfg, place, rest);
      place := place[1..];
      if kind == LongViaW {
        ret := ScanW(cfg, rest);
      } else if kind == NeedsArg || kind == MayHaveArg {
        ret := LetterArgument(c, kind == NeedsArg, rest);
      } else {
        ret := PlainLetter(c, kind == Unknown, t);
      }
    }

    /** A letter without an argument; the word is done with its last letter. */
    method PlainLetter(c: char, unknown: bool, ghost t: Step) returns (ret: Ret)
      requires optarg == None
      requires var r := if unknown then BadCh else Letter(c); t == if place == "" then Take(1, r, None) else Leave(r)
      modifies this`optind
      ensures ret == t.ret && State() == old(State()).(optind := old(optind) + if t.Take? then 1 else 0)
    {
      if place == "" {
        optind := optind + 1;
      }
      ret := if unknown then BadCh else Letter(c);
    }

    /** A letter that takes an argument: the rest of its word, or else, if it needs one, the next word. */
    method LetterArgument(c: char, needed: bool, ghost rest: seq<string>) returns (ret: Ret)
      requires optind < argv.Length && optarg == None && rest == argv[optind + 1..]
      modifies this`optind, this`optarg, this`place
      ensures var t := if old(place) != "" then Take(1, Letter(c), Some(old(place)))
                       else if !needed then Take(1, Letter(c), None)
                       else if rest == [] then Take(1, BadArg, None)
                       else Take(2, Letter(c), Some(rest[0]));
              && ret == t.ret
              && State() == old(State()).(optind := old(optind) + t.count, place := "", optarg := t.optarg)
    {
      if place != "" {
        optarg := Some(place);
      } else if needed {
        optind := optind + 1;
        if optind >= argv.Length {
          return BadArg;
        }
        assert argv[optind] == rest[0];
        optarg := Some(argv[optind]);
      }
      place := "";
      optind := optind + 1;
      return Letter(c);
    }

    /** `-W name`: the letters left in the word, or else the next word, are a long option. */
    method ScanW(cfg: Config, ghost rest: seq<string>) returns (ret: Ret)
      requires optind < argv.Length && optarg == None && rest == argv[optind + 1..]
      modifies this`optind, this`optarg, this`place
      ensures var t := if old(place) != "" then TakeLong(1, TryLong(cfg, old(place), rest, false))
                       else if rest == [] then Take(1, BadArg, None)
                       else TakeLong(2, TryLong(cfg, rest[0], rest[1..], false));
              && ret == t.ret
              && State() == old(State()).(optind := old(optind) + t.count, place := "", optarg := t.optarg)
    {
      if place == "" {
        optind := optind + 1;
        if optind >= argv.Length {
          return BadArg;
        }
        assert argv[optind] == rest[0] && argv[optind + 1..] == rest[1..];
        place := argv[optind];
      }
      var r := ParseLong(cfg, place, false);
      place := "";
      return r.value;
    }

    /** Put the skipped operands behind the options that followed them. */
    method PermuteSkipped()
      requires 0 <= nonoptStart <= nonoptEnd < optind <= argv.Length
      modifies argv
      ensures argv[..] == Permute.Exchanged(old(argv[..]), nonoptStart, nonoptEnd, optind)
    {
      Permute.PermuteArgs(argv, nonoptStart, nonoptEnd, optind);
    }

    /** The end of the parse: operands behind options, optind on the first operand. */
    method Conclude()
      requires State().Valid() && nonoptEnd != optind
      modifies this`optind, this`place, this`nonoptStart, this`nonoptEnd, argv
      ensures State() == Finish(old(State()))
    {
      place := "";
      if nonoptEnd != -1 {
        PermuteSkipped();
        optind := optind - (nonoptEnd - nonoptStart);
      } else if nonoptStart != -1 {
        optind := nonoptStart;
      }
      nonoptStart, nonoptEnd := -1, -1;
    }

    method SkipOperand()
      requires State().Valid() && place == "" && nonoptEnd != optind && optind < argv.Length
      modifies this`optind, this`nonoptStart, this`nonoptEnd, argv
      ensures State() == Skip(old(State()))
    {
      if nonoptStart == -1 {
        nonoptStart := optind;
      } else if nonoptEnd != -1 {
        PermuteSkipped();
        nonoptStart := optind - (nonoptEnd - nonoptStart);
        nonoptEnd := -1;
      }
      optind := optind + 1;
    }

    /** The operands at optind; Some says that the call returns at the first of them. */
    method SkipOperands(cfg: Config, ghost m: Machine) returns (r: Option<Ret>)
      requires m.Valid() && m.mode == ModeOf(cfg)
      requires State().Valid() && place == "" && optarg == None
      modifies this`optind, this`nonoptStart, this`nonoptEnd, this`optarg, argv
      ensures r.Some? ==> (State(), r.value) == Fetch(m, old(State()))
      ensures r.None? ==> State().Valid() && place == "" && optarg == None
      ensures r.None? ==> optind == argv.Length || IsOptionWord(argv[optind])
      ensures r.None? ==> Fetch(m, State()) == Fetch(m, old(State()))
    {
      while optind < argv.Length && !IsOptionWord(argv[optind])
        invariant State().Valid() && place == "" && optarg == None
        invariant Fetch(m, State()) == Fetch(m, old(State()))
        decreases argv.Length - optind
      {
        if cfg.AllArgs() {
          optarg := Some(argv[optind]);
          optind := optind + 1;
          return Some(InOrder);
        }
        if !cfg.Permutes() {
          return Some(Done);
        }
        SkipOperand();
      }
      return None;
    }

    /**
     * The part of getopt_internal between its label `start` and the scan of the letters. None says that an
     * option word was fetched; otherwise the call returns.
     */
    method FetchWord(cfg: Config, ghost m: Machine) returns (r: Option<Ret>)
      requires m.Valid() && m.mode == ModeOf(cfg)
      requires State().Valid() && place == "" && optarg == None
      modifies this`optind, this`place, this`nonoptStart, this`nonoptEnd, this`optarg, argv
      ensures r.Some? ==> (State(), r.value) == Fetch(m, old(State()))
      ensures r.None? ==> State().Valid() && place != "" && optarg == None
      ensures r.None? ==> Scan(m, State()) == Fetch(m, old(State()))
    {
      r := SkipOperands(cfg, m);
      if r.Some? {
        return;
      }
      if optind >= argv.Length {
        Conclude();
        return Some(Done);
      }
      r := OpenWord(m);
    }

    /** The scanner stands on an option word: `--` ends the parse, any other word is opened. */
    method OpenWord(ghost m: Machine) returns (r: Option<Ret>)
      requires m.Valid() && State().Valid() && place == "" && optarg == None
      requires optind < argv.Length && IsOptionWord(argv[optind])
      modifies this`optind, this`place, this`nonoptStart, this`nonoptEnd, argv
      ensures r.Some? ==> (State(), r.value) == Fetch(m, old(State()))
      ensures r.None? ==> State().Valid() && place != "" && optarg == None
      ensures r.None? ==> Scan(m, State()) == Fetch(m, old(State()))
    {
      ghost var s := State();
      MarkNonoptEnd();
      if argv[optind] == "--" {
        optind := optind + 1;
        assert State() == MarkEnd(s).(optind := s.optind + 1);
        Conclude();
        return Some(Done);
      }
      place := argv[optind][1..];
      assert State() == MarkEnd(s).(place := s.argv[s.optind][1..]);
      r := None;
    }

    method MarkNonoptEnd()
      modifies this`nonoptEnd
      ensures State() == MarkEnd(old(State()))
    {
      if nonoptStart != -1 && nonoptEnd == -1 {
        nonoptEnd := optind;
      }
    }

    method ScanCall(cfg: Config) returns (ret: Ret)
      requires State().Valid() && place != "" && optarg == None
      modifies this`optind, this`optarg, this`place
      ensures (State(), ret) == Scan(MachineOf(cfg), old(State()))
    {
      ghost var s, rest := State(), argv[optind + 1..];
      assert rest == s.argv[s.optind + 1..];
      ghost var goal := Scan(MachineOf(cfg), s);
      assert goal == Apply(s, WordStep(cfg, place, rest)) by {
        ScanIsWord(cfg, s, rest);
      }
      ret := ScanWord(cfg, WordStep(cfg, place, rest));
    }

    method FetchCall(cfg: Config) returns (ret: Ret)
      requires State().Valid() && place == "" && optarg == None
      modifies this`optind, this`place, this`nonoptStart, this`nonoptEnd, this`optarg, argv
      ensures (State(), ret) == Fetch(MachineOf(cfg), old(State()))
    {
      var r := FetchWord(cfg, MachineOf(cfg));
      if r.Some? {
        return r.value;
      }
      ret := ScanCall(cfg);
    }

    /** One call of getopt_long or getopt_long_only. */
    method GetoptLong(cfg: Config) returns (ret: Ret)
      requires Ready(State())
      modifies this`optind, this`optreset, this`place, this`nonoptStart, this`nonoptEnd, this`optarg, argv
      ensures (State(), ret) == Call(MachineOf(cfg), old(State()))
    {
      if optind == 0 {
        optind, optreset := 1, true;
      }
      optarg := None;
      if optreset {
        nonoptStart, nonoptEnd, place, optreset := -1, -1, "", false;
      }
      if place == "" {
        ret := FetchCall(cfg);
      } else {
        ret := ScanCall(cfg);
      }
    }

    /**
     * The loop of arg_parse_tagged: options in front, operands behind, optind between them; or, where operands are not
     * moved, the vector as it was and optind on the first operand that was not returned.
     */
    method ParseTagged(cfg: Config)
      requires argv.Length >= 1 && Parses(cfg, argv[1..])
      modifies this`optind, this`optreset, this`place, this`nonoptStart, this`nonoptEnd, this`optarg, argv
      ensures cfg.Permutes() ==>
                var p := Partition(MachineOf(cfg), old(argv[1..]));
                && argv[..] == [old(argv[0])] + p.options + p.operands
                && optind == 1 + |p.options|
                && Interleaves(old(argv[1..]), p.options, p.operands)
      ensures !cfg.Permutes() ==> argv[..] == old(argv[..]) && optind == 1 + Reached(MachineOf(cfg), old(argv[1..])).n
    {
      optind := 0;
      assert State().argv[1..] == argv[1..];
      ghost var m, s, goal := MachineOf(cfg), State(), FinalState(cfg, State());
      FinalStateIsReached(cfg, s);
      ghost var fuel: nat :| Drive(m, s, fuel) == Some(goal);
      ghost var trace := TraceOf(m, s, fuel);
      CallUntilDone(cfg, m, trace);
      assert State().argv == argv[..];
    }

    method CallOnce(cfg: Config, ghost m: Machine, ghost s: Scanner) returns (done: bool)
      requires m == MachineOf(cfg) && s == State() && Ready(s)
      modifies this`optind, this`optreset, this`place, this`nonoptStart, this`nonoptEnd, this`optarg, argv
      ensures State() == Called(m, s) && done == Ended(m, s)
    {
      var ret := GetoptLong(cfg);
      done := ret == Done;
    }

    /** getopt_long until it returns -1. */
    method CallUntilDone(cfg: Config, ghost m: Machine, ghost trace: seq<Scanner>)
      requires m == MachineOf(cfg) && trace != [] && State() == trace[0] && IsTrace(m, trace)
      modifies this`optind, this`optreset, this`place, this`nonoptStart, this`nonoptEnd, this`optarg, argv
      ensures State() == trace[|trace| - 1]
    {
      ghost var i := 0;
      var done := false;
      while !done
        invariant 0 <= i < |trace| && State() == trace[i]
        invariant done <==> i == |trace| - 1
        decreases |trace| - i
      {
        done := CallOnce(cfg, m, trace[i]);
        i := i + 1;
      }
    }
  }
}
