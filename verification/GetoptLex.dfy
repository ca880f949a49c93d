/**
 * How argtable3's getopt reads one option word: the option string, the long option table with its
 * abbreviations, and what the unread letters of a word make a call do. The build is GNU_COMPATIBLE.
 */
module GetoptLex {
  import opened Options

  datatype HasArg = NoArgument | RequiredArgument | OptionalArgument

  /** `flag` is zero where the source has a null pointer. */
  datatype LongOption = LongOption(name: string, hasArg: HasArg, flag: nat, val: int)

  /** The arguments every call of one parse shares. `raw` is the option string as the caller gave it. */
  datatype Config = Config(raw: string, longOptions: seq<LongOption>, longOnly: bool, posixlyCorrect: bool) {
    function Options(): string {
      if raw != "" && (raw[0] == '+' || raw[0] == '-') then raw[1..] else raw
    }

    predicate AllArgs() {
      raw != "" && raw[0] == '-'
    }

    predicate Permutes() {
      !posixlyCorrect && !(raw != "" && raw[0] == '+') && !AllArgs()
    }
  }

  /** What a call returns. `Done` is the -1 that ends a parse. */
  datatype Ret = Done | InOrder | BadCh | BadArg | Letter(c: char) | Flagged | Value(val: int)

  // ----- long options -----

  datatype Match = Found(index: nat) | Ambiguous | Missing

  /** The part of a long option before `=`. */
  function Key(word: string): string {
    if word == "" || word[0] == '=' then "" else [word[0]] + Key(word[1..])
  }

  predicate IsExact(o: LongOption, key: string) {
    o.name == key
  }

  /** An abbreviation; one letter abbreviates nothing if it may be a short option. */
  predicate IsPartial(o: LongOption, key: string, shortToo: bool) {
    key < o.name && !(shortToo && |key| == 1)
  }

  predicate Matches(o: LongOption, key: string, shortToo: bool, exact: bool) {
    if exact then IsExact(o, key) else IsPartial(o, key, shortToo)
  }

  /** The first option from i on that matches, or the table's length. */
  function First(table: seq<LongOption>, key: string, shortToo: bool, exact: bool, i: nat): (r: nat)
    requires i <= |table|
    ensures i <= r <= |table|
    ensures forall j :: i <= j < r ==> !Matches(table[j], key, shortToo, exact)
    ensures r < |table| ==> Matches(table[r], key, shortToo, exact)
    decreases |table| - i
  {
    if i == |table| || Matches(table[i], key, shortToo, exact) then i
    else First(table, key, shortToo, exact, i + 1)
  }

  /** Two abbreviations of one key clash unless they mean the same thing. */
  predicate Clash(cfg: Config, i: nat, m: nat)
    requires i < |cfg.longOptions| && m < |cfg.longOptions|
  {
    var o, p := cfg.longOptions[i], cfg.longOptions[m];
    cfg.longOnly || o.hasArg != p.hasArg || o.flag != p.flag || o.val != p.val
  }

  predicate ClashAfter(cfg: Config, key: string, shortToo: bool, m: nat, upTo: nat)
    requires m < |cfg.longOptions| && upTo <= |cfg.longOptions|
  {
    exists i :: m < i < upTo && IsPartial(cfg.longOptions[i], key, shortToo) && Clash(cfg, i, m)
  }

  /** An exact name wins; otherwise the first abbreviation, unless another one clashes with it. */
  function Lookup(cfg: Config, key: string, shortToo: bool): (m: Match)
    ensures m.Found? ==> m.index < |cfg.longOptions|
  {
    var table := cfg.longOptions;
    var e := First(table, key, shortToo, true, 0);
    var p := First(table, key, shortToo, false, 0);
    if e < |table| then Found(e)
    else if p == |table| then Missing
    else if ClashAfter(cfg, key, shortToo, p, |table|) then Ambiguous
    else Found(p)
  }

  /** The result of trying `word` as a long option: `Miss` says try it as short options instead. */
  datatype LongResult = Miss | Hit(extra: nat, ret: Ret, optarg: Option<string>)

  /** `rest` are the words after the one that holds the option; a detached argument is its first. */
  function TryLong(cfg: Config, word: string, rest: seq<string>, shortToo: bool): (r: LongResult)
    ensures r.Hit? ==> r.extra <= 1 && r.extra <= |rest| && r.ret != Done && r.ret != InOrder
    ensures r.Miss? ==> shortToo
  {
    var key := Key(word);
    var attached := if |key| < |word| then Some(word[|key| + 1..]) else None;
    match Lookup(cfg, key, shortToo)
    case Ambiguous => Hit(0, BadCh, None)
    case Missing => if shortToo then Miss else Hit(0, BadCh, None)
    case Found(i) =>
      var o := cfg.longOptions[i];
      var ret := if o.flag != 0 then Flagged else Value(o.val);
      match o.hasArg
      case NoArgument => if attached.Some? then Hit(0, BadCh, None) else Hit(0, ret, None)
      case OptionalArgument => Hit(0, ret, attached)
      case RequiredArgument =>
        if attached.Some? then Hit(0, ret, attached)
        else if rest == [] then Hit(0, BadArg, None)
        else Hit(1, ret, Some(rest[0]))
  }

  lemma KeyIsPrefix(word: string)
    ensures Key(word) <= word
    ensures |Key(word)| < |word| ==> word[|Key(word)|] == '='
    ensures '=' !in Key(word)
  {
  }

  // ----- the letters of a word -----

  /** The index of c's first occurrence, or the length. */
  function Position(s: string, c: char): (i: nat)
    ensures i <= |s|
    ensures i < |s| ==> s[i] == c
    ensures c !in s[..i]
  {
    if s == "" || s[0] == c then 0 else 1 + Position(s[1..], c)
  }

  /** How the option string treats letter c. */
  datatype Kind = Unknown | Plain | NeedsArg | MayHaveArg | LongViaW

  function KindOf(options: string, c: char): Kind {
    var i := Position(options, c);
    if c == ':' || i == |options| then Unknown
    else if c == 'W' && i + 1 < |options| && options[i + 1] == ';' then LongViaW
    else if i + 1 == |options| || options[i + 1] != ':' then Plain
    else if i + 2 < |options| && options[i + 2] == ':' then MayHaveArg
    else NeedsArg
  }

  predicate ShortToo(cfg: Config, place: string)
    requires place != ""
  {
    place[0] != ':' && place[0] in cfg.Options()
  }

  /**
   * What the letters in `place` make a call do: leave the first letter behind, consume words (the
   * current one included), or give up on a malformed word without consuming anything.
   */
  datatype Step = Leave(ret: Ret) | Take(count: nat, ret: Ret, optarg: Option<string>) | Malformed

  /** What any reading of a word must respect; a lone `-` is the malformed case. */
  predicate StepOk(place: string, rest: seq<string>, t: Step) {
    match t
    case Malformed => place == "-"
    case Leave(ret) => |place| > 1 && ret != Done && ret != InOrder
    case Take(n, ret, _) => place != "-" && 1 <= n <= 1 + |rest| && ret != Done && ret != InOrder
  }

  function TakeLong(before: nat, h: LongResult): Step
    requires h.Hit?
  {
    Take(before + h.extra, h.ret, h.optarg)
  }

  /** Lines 1867-1931: the next letter of a cluster of short options. `rest` are the words behind. */
  function ShortStep(cfg: Config, place: string, rest: seq<string>): (t: Step)
    requires place != ""
    ensures !t.Malformed? && t.ret != Done && t.ret != InOrder
    ensures t.Leave? ==> |place| > 1
    ensures t.Take? ==> 1 <= t.count <= 1 + |rest|
  {
    var c, tail := place[0], place[1..];
    match KindOf(cfg.Options(), c)
    case Unknown => if tail == "" then Take(1, BadCh, None) else Leave(BadCh)
    case Plain => if tail == "" then Take(1, Letter(c), None) else Leave(Letter(c))
    case MayHaveArg => Take(1, Letter(c), if tail != "" then Some(tail) else None)
    case NeedsArg =>
      if tail != "" then Take(1, Letter(c), Some(tail))
      else if rest == [] then Take(1, BadArg, None)
      else Take(2, Letter(c), Some(rest[0]))
    case LongViaW =>
      if tail != "" then TakeLong(1, TryLong(cfg, tail, rest, false))
      else if rest == [] then Take(1, BadArg, None)
      else TakeLong(2, TryLong(cfg, rest[0], rest[1..], false))
  }

  /** Lines 1837-1931: continue inside the current word. */
  function WordStep(cfg: Config, place: string, rest: seq<string>): (t: Step)
    requires place != ""
    ensures StepOk(place, rest, t)
  {
    if place == "-" then Malformed
    else if place[0] == '-' then TakeLong(1, TryLong(cfg, place[1..], rest, false))
    else if cfg.longOnly && TryLong(cfg, place, rest, ShortToo(cfg, place)).Hit? then
      TakeLong(1, TryLong(cfg, place, rest, ShortToo(cfg, place)))
    else ShortStep(cfg, place, rest)
  }
}
