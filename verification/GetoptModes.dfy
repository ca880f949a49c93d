/**
 * Whole parses in the two modes that leave the argument vector as it is: stopping at the first operand, and returning
 * operands in order, as the argument of an option.
 */
module GetoptModes {
  import opened Options
  import opened GetoptLex
  import opened GetoptSpec
  import opened GetoptParse

  /** How far a parse gets: n words, the last of them a closing `--` or not; the operands returned on the way. */
  datatype Reach = Reach(n: nat, closed: bool, operands: seq<string>) | Never

  function Farther(r: Reach, n: nat, operands: seq<string>): Reach {
    if r.Never? then r else r.(n := r.n + n, operands := operands + r.operands)
  }

  function Reached(m: Machine, words: seq<string>): (r: Reach)
    requires m.Valid()
    ensures r.Reach? ==> r.n <= |words|
    decreases |words|
  {
    if words == [] then Reach(0, false, [])
    else if !IsOptionWord(words[0]) then
      if m.mode == AllInOrder then Farther(Reached(m, words[1..]), 1, [words[0]]) else Reach(0, false, [])
    else if words[0] == "--" then Reach(1, true, [])
    else
      match Span(m, words[0][1..], words[1..])
      case None => Never
      case Some(n) => Farther(Reached(m, words[n..]), n, [])
  }

  /** Where a parse stops: behind a closing `--`, at the end of the words, or, unless it returns them, on an operand. */
  lemma {:induction false} StandsOnOperand(m: Machine, words: seq<string>)
    requires m.Valid() && Reached(m, words).Reach?
    ensures var r := Reached(m, words);
            && (r.closed ==> r.n > 0 && words[r.n - 1] == "--")
            && (!r.closed && r.n < |words| ==> m.mode != AllInOrder && !IsOptionWord(words[r.n]))
            && (m.mode != AllInOrder ==> r.operands == [])
            && (forall w :: w in r.operands ==> !IsOptionWord(w))
    decreases |words|
  {
    if words == [] || words[0] == "--" {
    } else if !IsOptionWord(words[0]) {
      if m.mode == AllInOrder {
        StandsOnOperand(m, words[1..]);
      }
    } else {
      var n := Span(m, words[0][1..], words[1..]).value;
      StandsOnOperand(m, words[n..]);
    }
  }

  // ----- calls -----

  /** The operand that one call returns, if it does. */
  function Visit(m: Machine, s: Scanner): seq<string>
    requires m.Valid() && Ready(s)
  {
    var (t, ret) := Call(m, s);
    if ret == InOrder && t.optarg.Some? then [t.optarg.value] else []
  }

  /** The operands that up to `fuel` calls return. */
  function Visits(m: Machine, s: Scanner, fuel: nat): seq<string>
    requires m.Valid() && Ready(s)
    decreases fuel
  {
    if fuel == 0 then []
    else Visit(m, s) + if Ended(m, s) then [] else Visits(m, Called(m, s), fuel - 1)
  }

  /** Repeated calls end in t and return these operands. */
  ghost predicate EndsWith(m: Machine, s: Scanner, t: Scanner, operands: seq<string>)
    requires m.Valid() && Ready(s)
  {
    exists fuel: nat :: Drive(m, s, fuel) == Some(t) && Visits(m, s, fuel) == operands
  }

  lemma CallForgets(m: Machine, s: Scanner)
    requires m.Valid() && s.Valid()
    ensures Call(m, s) == Call(m, Forget(s))
  {
  }

  lemma EndsWithCall(m: Machine, s: Scanner, t: Scanner, operands: seq<string>)
    requires m.Valid() && s.Valid() && Call(m, s).1 != Done && EndsWith(m, Forget(Call(m, s).0), t, operands)
    ensures EndsWith(m, s, t, Visit(m, s) + operands)
  {
    var u := Call(m, s).0;
    var fuel: nat :| Drive(m, Forget(u), fuel) == Some(t) && Visits(m, Forget(u), fuel) == operands;
    DriveForgets(m, u, fuel);
    CallForgets(m, u);
    assert Visits(m, u, fuel) == Visits(m, Forget(u), fuel);
    assert Drive(m, s, fuel + 1) == Some(t) && Visits(m, s, fuel + 1) == Visit(m, s) + operands;
  }

  lemma EndsWithDone(m: Machine, s: Scanner)
    requires m.Valid() && s.Valid() && Call(m, s).1 == Done
    ensures EndsWith(m, s, Call(m, s).0, [])
  {
    assert Drive(m, s, 1) == Some(Call(m, s).0) && Visits(m, s, 1) == [];
  }

  /** Inside a word no operand is returned. */
  lemma {:induction false} EndsWithWord(m: Machine, s: Scanner, n: nat, t: Scanner, operands: seq<string>)
    requires m.Valid() && s.Valid() && s.place != "" && Span(m, s.place, s.argv[s.optind + 1..]) == Some(n)
    requires AtWord(After(s, n)) && EndsWith(m, After(s, n), t, operands)
    ensures EndsWith(m, s, t, operands)
    decreases |s.place|
  {
    ScanSpan(m, s);
    ScanVisitsNone(m, s);
    var u := Forget(Call(m, s).0);
    if u.place != "" {
      assert After(u, n) == After(s, n);
      EndsWithWord(m, u, n, t, operands);
    }
    EndsWithCall(m, s, t, operands);
    assert [] + operands == operands;
  }

  lemma ScanVisitsNone(m: Machine, s: Scanner)
    requires m.Valid() && s.Valid() && s.place != ""
    ensures Visit(m, s) == []
  {
  }

  lemma CallBegins(m: Machine, s: Scanner)
    requires m.Valid() && AtWord(s) && s.optind < |s.argv|
    requires IsOptionWord(s.argv[s.optind]) && s.argv[s.optind] != "--"
    ensures Call(m, s) == Call(m, Begin(s))
  {
  }

  lemma EndsWithOption(m: Machine, s: Scanner, n: nat, t: Scanner, operands: seq<string>)
    requires m.Valid() && AtWord(s) && s.optind < |s.argv|
    requires IsOptionWord(s.argv[s.optind]) && s.argv[s.optind] != "--"
    requires Span(m, s.argv[s.optind][1..], s.argv[s.optind + 1..]) == Some(n)
    requires AtWord(After(Begin(s), n)) && EndsWith(m, After(Begin(s), n), t, operands)
    ensures EndsWith(m, s, t, operands)
  {
    EndsWithWord(m, Begin(s), n, t, operands);
    var fuel: nat :| Drive(m, Begin(s), fuel) == Some(t) && Visits(m, Begin(s), fuel) == operands;
    CallBegins(m, s);
    assert Drive(m, s, fuel) == Some(t) && Visits(m, s, fuel) == operands;
  }

  /** An operand in the mode that returns operands. */
  lemma OperandCall(m: Machine, s: Scanner)
    requires m.Valid() && m.mode == AllInOrder && AtWord(s) && s.optind < |s.argv| && !IsOptionWord(s.argv[s.optind])
    requires s.start == -1
    ensures Call(m, s).1 == InOrder && Visit(m, s) == [s.argv[s.optind]] && Forget(Call(m, s).0) == After(s, 1)
  {
  }

  /** At `--`, at the end, or on an operand that stops the parse. */
  lemma LastCall(m: Machine, s: Scanner)
    requires m.Valid() && m.mode != Permuting && AtWord(s) && s.start == -1
    requires s.optind < |s.argv| ==>
      if IsOptionWord(s.argv[s.optind]) then s.argv[s.optind] == "--" else m.mode == Stopping
    ensures Call(m, s).1 == Done
    ensures Call(m, s).0 == After(s, if s.optind < |s.argv| && s.argv[s.optind] == "--" then 1 else 0)
  {
  }

  lemma {:induction false} ModeParses(m: Machine, s: Scanner)
    requires m.Valid() && m.mode != Permuting && AtWord(s) && s.start == -1 && Reached(m, s.argv[s.optind..]).Reach?
    ensures var r := Reached(m, s.argv[s.optind..]); EndsWith(m, s, After(s, r.n), r.operands)
    decreases |s.argv| - s.optind
  {
    var words := s.argv[s.optind..];
    var r := Reached(m, words);
    if words == [] || words[0] == "--" || (!IsOptionWord(words[0]) && m.mode == Stopping) {
      LastCall(m, s);
      EndsWithDone(m, s);
    } else if !IsOptionWord(words[0]) {
      OperandCall(m, s);
      var u := After(s, 1);
      assert u.argv[u.optind..] == words[1..];
      ModeParses(m, u);
      assert After(u, Reached(m, words[1..]).n) == After(s, r.n);
      EndsWithCall(m, s, After(s, r.n), Reached(m, words[1..]).operands);
    } else {
      assert words[1..] == s.argv[s.optind + 1..];
      var n := Span(m, words[0][1..], words[1..]).value;
      var u := After(Begin(s), n);
      assert u.argv[u.optind..] == words[n..];
      ModeParses(m, u);
      assert After(u, Reached(m, words[n..]).n) == After(s, r.n);
      assert r.operands == Reached(m, words[n..]).operands;
      EndsWithOption(m, s, n, After(s, r.n), r.operands);
    }
  }

  lemma {:induction false} NeverEnds(m: Machine, s: Scanner, t: Scanner)
    requires m.Valid() && m.mode != Permuting && AtWord(s) && s.start == -1 && Reached(m, s.argv[s.optind..]) == Never
    ensures !Ends(m, s, t)
    decreases |s.argv| - s.optind
  {
    var words := s.argv[s.optind..];
    assert words[1..] == s.argv[s.optind + 1..];
    if !IsOptionWord(words[0]) {
      OperandCall(m, s);
      var u := After(s, 1);
      assert u.argv[u.optind..] == words[1..];
      NeverEnds(m, u, t);
      if Ends(m, s, t) {
        var fuel: nat :| Drive(m, s, fuel) == Some(t);
        DriveCall(m, s, fuel);
      }
    } else if Span(m, words[0][1..], words[1..]) == None {
      StuckAtWord(m, s, t);
    } else {
      var n := Span(m, words[0][1..], words[1..]).value;
      var u := After(Begin(s), n);
      assert u.argv[u.optind..] == words[n..];
      NeverEnds(m, u, t);
      if Ends(m, s, t) {
        EndsOnlyThroughOption(m, s, n, t);
      }
    }
  }

  // ----- whole parses -----

  /** The scanner behind n words, with the vector as it was. */
  function Behind(s: Scanner, n: nat): Scanner {
    Scanner(s.argv, 1 + n, false, "", -1, -1, None)
  }

  /**
   * Stopping at the first operand, or returning operands in order, from any stale state with optind zero: the calls
   * come to an end exactly when no scanned word gets stuck; the vector is then as it was, optind stands where the
   * grammar says, and the operands were returned in order.
   */
  lemma ModeParseIff(cfg: Config, s: Scanner)
    requires s.optind == 0 && |s.argv| >= 1 && !cfg.Permutes()
    ensures var r := Reached(MachineOf(cfg), s.argv[1..]);
            && ((exists t :: Ends(MachineOf(cfg), s, t)) <==> r.Reach?)
            && (r.Reach? ==> EndsWith(MachineOf(cfg), s, Behind(s, r.n), r.operands))
  {
    var m, u := MachineOf(cfg), Forget(Reset(s));
    FreshStart(m, s, 0);
    assert u.argv[u.optind..] == s.argv[1..];
    if Reached(m, s.argv[1..]).Reach? {
      var r := Reached(m, s.argv[1..]);
      ModeParses(m, u);
      var t := Behind(s, r.n);
      assert After(u, r.n) == t;
      var fuel: nat :| Drive(m, u, fuel) == Some(t) && Visits(m, u, fuel) == r.operands;
      FreshStart(m, s, fuel);
      FreshVisits(m, s, fuel);
      assert Ends(m, s, t);
    } else if t :| Ends(m, s, t) {
      NeverEnds(m, u, t);
      var fuel: nat :| Drive(m, s, fuel) == Some(t);
      FreshStart(m, s, fuel);
    }
  }

  lemma FreshVisits(m: Machine, s: Scanner, fuel: nat)
    requires m.Valid() && s.optind == 0 && |s.argv| >= 1
    ensures AtWord(Forget(Reset(s))) && Visits(m, s, fuel) == Visits(m, Forget(Reset(s)), fuel)
  {
  }
}
