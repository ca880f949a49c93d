/**
 * One call of getopt_long as a function of the scanner's static state and the argument vector. The
 * reading of a word's letters is a parameter, so that what calls do to the vector stands on its own.
 */
module GetoptSpec {
  import opened Permute
  import opened Options
  import opened GetoptLex

  /** What the scanner does with operands. */
  datatype Mode = Permuting | Stopping | AllInOrder

  /** How the calls of one parse behave: the treatment of operands and the reading of words. */
  datatype Machine = Machine(mode: Mode, lex: (string, seq<string>) -> Step) {
    ghost predicate Valid() {
      forall place: string, rest: seq<string> :: place != "" ==> StepOk(place, rest, lex(place, rest))
    }
  }

  function ModeOf(cfg: Config): Mode {
    if cfg.AllArgs() then AllInOrder else if cfg.Permutes() then Permuting else Stopping
  }

  /** The machine that a configuration describes. */
  function MachineOf(cfg: Config): (m: Machine)
    ensures m.Valid()
  {
    Machine(ModeOf(cfg),
            (place: string, rest: seq<string>) => if place == "" then Malformed else WordStep(cfg, place, rest))
  }

  /** The static variables of the scanner together with the argument vector. -1 marks an unset index. */
  datatype Scanner = Scanner(argv: seq<string>, optind: nat, optreset: bool, place: string,
                             start: int, end: int, optarg: Option<string>) {
    /** The words skipped so far are argv[start..end]; options that followed them end at optind. */
    predicate Valid() {
      && 1 <= optind <= |argv|
      && (place != "" ==> optind < |argv| && IsOptionWord(argv[optind]))
      && (if start == -1 then end == -1
          else if end == -1 then 1 <= start < optind && place == ""
          else 1 <= start < end <= optind && (end == optind ==> optind < |argv| && IsOptionWord(argv[optind])))
      && !optreset
    }
  }

  /** A word that starts an option, `--` included. A lone `-` is an operand. */
  predicate IsOptionWord(w: string) {
    |w| >= 2 && w[0] == '-'
  }

  // ----- one call -----

  /** Continue inside the current word. */
  function Scan(m: Machine, s: Scanner): (r: (Scanner, Ret))
    requires m.Valid() && s.Valid() && s.place != ""
    ensures r.0.Valid() && r.1 != Done
  {
    Apply(s, m.lex(s.place, s.argv[s.optind + 1..]))
  }

  function Apply(s: Scanner, t: Step): (Scanner, Ret)
    requires s.place != ""
  {
    match t
    case Leave(ret) => (s.(place := s.place[1..], optarg := None), ret)
    case Take(n, ret, arg) => (s.(optind := s.optind + n, place := "", optarg := arg), ret)
    case Malformed => (s.(place := "", optarg := None), BadArg)
  }

  lemma {:induction false} LexIsWordStep(cfg: Config, place: string, rest: seq<string>)
    requires place != ""
    ensures MachineOf(cfg).lex(place, rest) == WordStep(cfg, place, rest)
  {
  }

  lemma {:induction false} ScanReadsWord(m: Machine, s: Scanner, t: Step)
    requires m.Valid() && s.Valid() && s.place != "" && t == m.lex(s.place, s.argv[s.optind + 1..])
    ensures Scan(m, s) == Apply(s, t)
  {
  }

  lemma {:induction false} ScanIsWord(cfg: Config, s: Scanner, rest: seq<string>)
    requires s.Valid() && s.place != "" && rest == s.argv[s.optind + 1..]
    ensures Scan(MachineOf(cfg), s) == Apply(s, WordStep(cfg, s.place, rest))
  {
    LexIsWordStep(cfg, s.place, rest);
    ScanReadsWord(MachineOf(cfg), s, MachineOf(cfg).lex(s.place, rest));
  }

  /** Put the skipped words behind the options that followed them, and stop on the first of them. */
  function Finish(s: Scanner): (t: Scanner)
    requires s.Valid()
  {
    var t :=
      if s.end != -1 then
        s.(argv := Exchanged(s.argv, s.start, s.end, s.optind), optind := s.optind - (s.end - s.start))
      else if s.start != -1 then s.(optind := s.start)
      else s;
    t.(place := "", start := -1, end := -1)
  }

  /** Step over an operand; options seen since the last one move in front of all operands so far. */
  function Skip(s: Scanner): Scanner
    requires s.end != -1 ==> 0 <= s.start <= s.end <= s.optind <= |s.argv|
  {
    var t :=
      if s.start == -1 then s.(start := s.optind)
      else if s.end != -1 then
        s.(argv := Exchanged(s.argv, s.start, s.end, s.optind), start := s.optind - (s.end - s.start), end := -1)
      else s;
    t.(optind := s.optind + 1, place := "")
  }

  /** Note where the options after the skipped words begin. */
  function MarkEnd(s: Scanner): Scanner {
    if s.start != -1 && s.end == -1 then s.(end := s.optind) else s
  }

  /** Lines 1757-1835: fetch the next option word, then scan it. */
  function Fetch(m: Machine, s: Scanner): (r: (Scanner, Ret))
    requires m.Valid() && s.Valid() && s.place == ""
    ensures r.0.Valid()
    decreases |s.argv| - s.optind
  {
    if s.optind >= |s.argv| then
      (Finish(s), Done)
    else
      var w := s.argv[s.optind];
      if !IsOptionWord(w) then
        if m.mode == AllInOrder then (s.(optind := s.optind + 1, optarg := Some(w)), InOrder)
        else if m.mode == Stopping then (s, Done)
        else Fetch(m, Skip(s))
      else if w == "--" then
        (Finish(MarkEnd(s).(optind := s.optind + 1)), Done)
      else
        Scan(m, MarkEnd(s).(place := w[1..]))
  }

  /** One call of getopt_long. An optind of zero asks for a fresh start. */
  function Call(m: Machine, s: Scanner): (r: (Scanner, Ret))
    requires m.Valid() && Ready(s)
    ensures r.0.Valid()
  {
    var t := Reset(s).(optarg := None);
    if t.place == "" then Fetch(m, t) else Scan(m, t)
  }

  /** The states in which a call is legitimate: a fresh start on a vector with a program name, or mid-parse. */
  predicate Ready(s: Scanner) {
    if s.optind == 0 then |s.argv| >= 1 else s.Valid()
  }

  function Reset(s: Scanner): (t: Scanner)
    requires Ready(s)
    ensures t.Valid()
  {
    if s.optind == 0 then s.(optind := 1, optreset := false, place := "", start := -1, end := -1) else s
  }
}
