/**
 * What one call returns and consumes, in terms of the option string, the long option table and the words themselves:
 * the letters and the colons behind them, and the names with their abbreviations.
 */
module GetoptReading {
  import opened Options
  import opened GetoptLex
  import opened GetoptSpec
  import opened GetoptParse

  /** What is left to read of the option word that the scanner stands on or in. */
  predicate StandsOn(s: Scanner, text: string) {
    && s.Valid() && text != "" && s.optind < |s.argv|
    && (if s.place != "" then text == s.place else s.argv[s.optind] == "-" + text && text != "-")
  }

  /** The call consumed n words, left `place` to read and delivered `arg`; the vector is as it was. */
  predicate Moved(s: Scanner, t: Scanner, n: nat, place: string, arg: Option<string>) {
    var end := if s.start != -1 && s.end == -1 then s.optind else s.end;
    t == s.(optind := s.optind + n, place := place, end := end, optarg := arg)
  }

  lemma CallReads(cfg: Config, s: Scanner, text: string)
    requires StandsOn(s, text)
    ensures Call(MachineOf(cfg), s)
         == Apply(MarkEnd(s).(place := text, optarg := None), WordStep(cfg, text, s.argv[s.optind + 1..]))
  {
    var t := MarkEnd(s).(place := text, optarg := None);
    assert t.Valid();
    ScanIsWord(cfg, t, s.argv[s.optind + 1..]);
    assert s.place == "" ==> s.argv[s.optind][1..] == text;
  }

  // ----- letters -----

  /** The option string has letter c first at i. */
  predicate DeclaredAt(options: string, c: char, i: nat) {
    i < |options| && options[i] == c && forall j :: 0 <= j < i ==> options[j] != c
  }

  predicate Colon(options: string, i: nat) {
    i < |options| && options[i] == ':'
  }

  lemma {:induction false} PositionIs(options: string, c: char, i: nat)
    requires DeclaredAt(options, c, i)
    ensures Position(options, c) == i
    decreases i
  {
    if i > 0 {
      assert options[0] != c;
      assert forall j :: 0 <= j < i - 1 ==> options[1..][j] == options[j + 1];
      PositionIs(options[1..], c, i - 1);
    }
  }

  /** The text is read letter by letter: it does not go on with a dash, and no long option takes it. */
  predicate ReadsLetters(cfg: Config, text: string) {
    && text != "" && text[0] != '-'
    && (cfg.longOnly ==> ShortToo(cfg, text) && Unnamed(cfg, Key(text), true))
  }

  lemma LettersStep(cfg: Config, text: string, rest: seq<string>)
    requires ReadsLetters(cfg, text)
    ensures WordStep(cfg, text, rest) == ShortStep(cfg, text, rest)
  {
    if cfg.longOnly {
      UnnamedIsMissing(cfg, Key(text), true);
    }
  }

  /**
   * A letter with one colon takes the rest of its word, or else the next word, whatever that looks like; without
   * either the argument is missing.
   */
  lemma RequiredArgumentRead(cfg: Config, s: Scanner, text: string, i: nat)
    requires StandsOn(s, text) && ReadsLetters(cfg, text) && text[0] != ':'
    requires DeclaredAt(cfg.Options(), text[0], i)
    requires Colon(cfg.Options(), i + 1) && !Colon(cfg.Options(), i + 2)
    ensures var (t, ret) := Call(MachineOf(cfg), s);
            if |text| > 1 then ret == Letter(text[0]) && Moved(s, t, 1, "", Some(text[1..]))
            else if s.optind + 1 < |s.argv|
            then ret == Letter(text[0]) && Moved(s, t, 2, "", Some(s.argv[s.optind + 1]))
            else ret == BadArg && Moved(s, t, 1, "", None)
  {
    CallReads(cfg, s, text);
    LettersStep(cfg, text, s.argv[s.optind + 1..]);
    PositionIs(cfg.Options(), text[0], i);
  }

  /** A letter with two colons takes the rest of its word, and never the next one. */
  lemma OptionalArgumentRead(cfg: Config, s: Scanner, text: string, i: nat)
    requires StandsOn(s, text) && ReadsLetters(cfg, text) && text[0] != ':'
    requires DeclaredAt(cfg.Options(), text[0], i)
    requires Colon(cfg.Options(), i + 1) && Colon(cfg.Options(), i + 2)
    ensures var (t, ret) := Call(MachineOf(cfg), s);
            ret == Letter(text[0]) && Moved(s, t, 1, "", if |text| > 1 then Some(text[1..]) else None)
  {
    CallReads(cfg, s, text);
    LettersStep(cfg, text, s.argv[s.optind + 1..]);
    PositionIs(cfg.Options(), text[0], i);
  }

  /** A letter without a colon takes nothing; the word is consumed with its last letter. */
  lemma PlainLetterRead(cfg: Config, s: Scanner, text: string, i: nat)
    requires StandsOn(s, text) && ReadsLetters(cfg, text) && text[0] != ':'
    requires DeclaredAt(cfg.Options(), text[0], i) && !Colon(cfg.Options(), i + 1)
    requires !(text[0] == 'W' && i + 1 < |cfg.Options()| && cfg.Options()[i + 1] == ';')
    ensures var (t, ret) := Call(MachineOf(cfg), s);
            ret == Letter(text[0]) && Moved(s, t, if |text| > 1 then 0 else 1, text[1..], None)
  {
    CallReads(cfg, s, text);
    LettersStep(cfg, text, s.argv[s.optind + 1..]);
    PositionIs(cfg.Options(), text[0], i);
  }

  /** An undeclared letter, or a colon, is reported and passed over like one without an argument. */
  lemma UnknownLetterRead(cfg: Config, s: Scanner, text: string)
    requires StandsOn(s, text) && ReadsLetters(cfg, text)
    requires text[0] == ':' || text[0] !in cfg.Options()
    ensures var (t, ret) := Call(MachineOf(cfg), s);
            ret == BadCh && Moved(s, t, if |text| > 1 then 0 else 1, text[1..], None)
  {
    CallReads(cfg, s, text);
    LettersStep(cfg, text, s.argv[s.optind + 1..]);
  }

  /** A dash at the end of a cluster is refused and consumes nothing: the next call starts the word again. */
  lemma ClosingDashRead(cfg: Config, s: Scanner)
    requires StandsOn(s, "-")
    ensures var (t, ret) := Call(MachineOf(cfg), s); ret == BadArg && Moved(s, t, 0, "", None)
  {
    CallReads(cfg, s, "-");
  }

  // ----- names -----

  /** `key` is the part of a long option in front of the first `=`. */
  predicate IsKey(word: string, key: string) {
    key <= word && '=' !in key && (word == key || word[|key|] == '=')
  }

  lemma {:induction false} KeyIs(word: string, key: string)
    requires IsKey(word, key)
    ensures Key(word) == key
    decreases |word|
  {
    if key != [] {
      assert word[1..][..|key| - 1] == key[1..];
      assert forall j :: 0 <= j < |key| - 1 ==> key[1..][j] == key[j + 1];
      KeyIs(word[1..], key[1..]);
    }
  }

  /** The key is shorter than the name and its beginning; a single letter that may be an option abbreviates nothing. */
  predicate Abbreviates(key: string, o: LongOption, shortToo: bool) {
    |key| < |o.name| && key == o.name[..|key|] && !(shortToo && |key| == 1)
  }

  predicate Unnamed(cfg: Config, key: string, shortToo: bool) {
    forall j :: 0 <= j < |cfg.longOptions| ==>
      cfg.longOptions[j].name != key && !Abbreviates(key, cfg.longOptions[j], shortToo)
  }

  predicate SameMeaning(o: LongOption, p: LongOption) {
    o.hasArg == p.hasArg && o.flag == p.flag && o.val == p.val
  }

  /** The key is not a whole name, and option i is the first that it abbreviates. */
  predicate FirstAbbreviated(cfg: Config, key: string, shortToo: bool, i: nat) {
    && i < |cfg.longOptions| && Abbreviates(key, cfg.longOptions[i], shortToo)
    && (forall j :: 0 <= j < |cfg.longOptions| ==> cfg.longOptions[j].name != key)
    && (forall j :: 0 <= j < i ==> !Abbreviates(key, cfg.longOptions[j], shortToo))
  }

  /** Another option that the key abbreviates means something else; to getopt_long_only any other does. */
  predicate Rivals(cfg: Config, key: string, shortToo: bool, i: nat, j: nat) {
    && i < j < |cfg.longOptions| && Abbreviates(key, cfg.longOptions[j], shortToo)
    && (cfg.longOnly || !SameMeaning(cfg.longOptions[i], cfg.longOptions[j]))
  }

  /** The option that a key stands for: the first with that name, else one it abbreviates without a rival. */
  ghost predicate StandsFor(cfg: Config, key: string, shortToo: bool, i: nat) {
    || (&& i < |cfg.longOptions| && cfg.longOptions[i].name == key
        && forall j :: 0 <= j < i ==> cfg.longOptions[j].name != key)
    || (FirstAbbreviated(cfg, key, shortToo, i) && forall j: nat :: !Rivals(cfg, key, shortToo, i, j))
  }

  predicate IsAmbiguous(cfg: Config, key: string, shortToo: bool, i: nat, j: nat) {
    FirstAbbreviated(cfg, key, shortToo, i) && Rivals(cfg, key, shortToo, i, j)
  }

  lemma PartialIs(key: string, o: LongOption, shortToo: bool)
    ensures IsPartial(o, key, shortToo) <==> Abbreviates(key, o, shortToo)
  {
  }

  lemma UnnamedIsMissing(cfg: Config, key: string, shortToo: bool)
    requires Unnamed(cfg, key, shortToo)
    ensures Lookup(cfg, key, shortToo) == Missing
  {
    forall o | o in cfg.longOptions ensures IsPartial(o, key, shortToo) <==> Abbreviates(key, o, shortToo) {
      PartialIs(key, o, shortToo);
    }
  }

  lemma StandsForIsFound(cfg: Config, key: string, shortToo: bool, i: nat)
    requires StandsFor(cfg, key, shortToo, i)
    ensures Lookup(cfg, key, shortToo) == Found(i)
  {
    forall o | o in cfg.longOptions ensures IsPartial(o, key, shortToo) <==> Abbreviates(key, o, shortToo) {
      PartialIs(key, o, shortToo);
    }
    if FirstAbbreviated(cfg, key, shortToo, i) && cfg.longOptions[i].name != key {
      forall j | i < j < |cfg.longOptions| && IsPartial(cfg.longOptions[j], key, shortToo) ensures !Clash(cfg, j, i) {
        assert !Rivals(cfg, key, shortToo, i, j);
      }
    }
  }

  lemma AmbiguousIs(cfg: Config, key: string, shortToo: bool, i: nat, j: nat)
    requires IsAmbiguous(cfg, key, shortToo, i, j)
    ensures Lookup(cfg, key, shortToo) == Ambiguous
  {
    forall o | o in cfg.longOptions ensures IsPartial(o, key, shortToo) <==> Abbreviates(key, o, shortToo) {
      PartialIs(key, o, shortToo);
    }
    assert Clash(cfg, j, i);
  }

  /** There is no fourth case: a key stands for an option, or is ambiguous, or names nothing. */
  lemma EveryKeyIsOne(cfg: Config, key: string, shortToo: bool) returns (i: nat, j: nat)
    ensures StandsFor(cfg, key, shortToo, i) || IsAmbiguous(cfg, key, shortToo, i, j) || Unnamed(cfg, key, shortToo)
  {
    forall o | o in cfg.longOptions ensures IsPartial(o, key, shortToo) <==> Abbreviates(key, o, shortToo) {
      PartialIs(key, o, shortToo);
    }
    var e := First(cfg.longOptions, key, shortToo, true, 0);
    var p := First(cfg.longOptions, key, shortToo, false, 0);
    i, j := if e < |cfg.longOptions| then e else p, 0;
    if e == |cfg.longOptions| && p < |cfg.longOptions| {
      assert FirstAbbreviated(cfg, key, shortToo, p);
      if k: nat :| Rivals(cfg, key, shortToo, p, k) {
        j := k;
      }
    }
  }

  /** The long option in `word` ends at word `at` of those from optind on; a detached argument is the word behind. */
  predicate LongTaken(cfg: Config, s: Scanner, t: Scanner, ret: Ret, at: nat, word: string, key: string, i: nat)
    requires i < |cfg.longOptions| && |key| <= |word| && s.optind + at <= |s.argv|
  {
    var o := cfg.longOptions[i];
    var value := if o.flag != 0 then Flagged else Value(o.val);
    if word != key then
      if o.hasArg == NoArgument then ret == BadCh && Moved(s, t, at, "", None)
      else ret == value && |key| < |word| && Moved(s, t, at, "", Some(word[|key| + 1..]))
    else if o.hasArg != RequiredArgument then ret == value && Moved(s, t, at, "", None)
    else if s.optind + at == |s.argv| then ret == BadArg && Moved(s, t, at, "", None)
    else ret == value && Moved(s, t, at + 1, "", Some(s.argv[s.optind + at]))
  }

  /** The text is tried as the long option `word`: behind two dashes, or behind one by getopt_long_only. */
  predicate LongWord(cfg: Config, text: string, word: string, shortToo: bool) {
    || (|text| > 1 && text[0] == '-' && word == text[1..] && !shortToo)
    || (text != "" && text[0] != '-' && cfg.longOnly && word == text
        && (shortToo <==> text[0] != ':' && text[0] in cfg.Options()))
  }

  lemma LongStep(cfg: Config, text: string, rest: seq<string>, word: string, shortToo: bool)
    requires LongWord(cfg, text, word, shortToo) && TryLong(cfg, word, rest, shortToo).Hit?
    ensures WordStep(cfg, text, rest) == TakeLong(1, TryLong(cfg, word, rest, shortToo))
  {
  }

  /** The scanner behind the word in which a long option was found. */
  function Behind(s: Scanner, at: nat, h: LongResult): (r: (Scanner, Ret))
    requires h.Hit?
    ensures Moved(s, r.0, at + h.extra, "", h.optarg) && r.1 == h.ret
  {
    (MarkEnd(s).(optind := s.optind + at + h.extra, place := "", optarg := h.optarg), h.ret)
  }

  lemma FoundIsTaken(cfg: Config, s: Scanner, at: nat, word: string, shortToo: bool, key: string, i: nat)
    requires IsKey(word, key) && StandsFor(cfg, key, shortToo, i) && s.optind + at <= |s.argv|
    ensures var h := TryLong(cfg, word, s.argv[s.optind + at..], shortToo);
            h.Hit? && LongTaken(cfg, s, Behind(s, at, h).0, h.ret, at, word, key, i)
  {
    KeyIs(word, key);
    StandsForIsFound(cfg, key, shortToo, i);
  }

  lemma RefusedIsHit(cfg: Config, word: string, rest: seq<string>, shortToo: bool, key: string, i: nat, j: nat)
    requires IsKey(word, key)
    requires IsAmbiguous(cfg, key, shortToo, i, j) || (Unnamed(cfg, key, shortToo) && !shortToo)
    ensures TryLong(cfg, word, rest, shortToo) == Hit(0, BadCh, None)
  {
    KeyIs(word, key);
    if IsAmbiguous(cfg, key, shortToo, i, j) {
      AmbiguousIs(cfg, key, shortToo, i, j);
    } else {
      UnnamedIsMissing(cfg, key, shortToo);
    }
  }

  lemma CallTakes(cfg: Config, s: Scanner, text: string, word: string, shortToo: bool, h: LongResult)
    requires StandsOn(s, text) && LongWord(cfg, text, word, shortToo)
    requires h.Hit? && h == TryLong(cfg, word, s.argv[s.optind + 1..], shortToo)
    ensures Call(MachineOf(cfg), s) == Behind(s, 1, h)
  {
    CallReads(cfg, s, text);
    LongStep(cfg, text, s.argv[s.optind + 1..], word, shortToo);
  }

  /** A long option by its name or an abbreviation, with its argument behind `=`, in the next word, or missing. */
  lemma LongOptionRead(cfg: Config, s: Scanner, text: string, word: string, shortToo: bool, key: string, i: nat)
    requires StandsOn(s, text) && LongWord(cfg, text, word, shortToo) && IsKey(word, key)
    requires StandsFor(cfg, key, shortToo, i)
    ensures var (t, ret) := Call(MachineOf(cfg), s); LongTaken(cfg, s, t, ret, 1, word, key, i)
  {
    FoundIsTaken(cfg, s, 1, word, shortToo, key, i);
    CallTakes(cfg, s, text, word, shortToo, TryLong(cfg, word, s.argv[s.optind + 1..], shortToo));
  }

  /** An ambiguous abbreviation, or a name nobody has where no letter can be meant, is reported and consumed. */
  lemma LongOptionRefused(cfg: Config, s: Scanner, text: string, word: string, shortToo: bool, key: string,
                          i: nat, j: nat)
    requires StandsOn(s, text) && LongWord(cfg, text, word, shortToo) && IsKey(word, key)
    requires IsAmbiguous(cfg, key, shortToo, i, j) || (Unnamed(cfg, key, shortToo) && !shortToo)
    ensures var (t, ret) := Call(MachineOf(cfg), s); ret == BadCh && Moved(s, t, 1, "", None)
  {
    RefusedIsHit(cfg, word, s.argv[s.optind + 1..], shortToo, key, i, j);
    CallTakes(cfg, s, text, word, shortToo, Hit(0, BadCh, None));
  }

  // ----- a long option behind -W -----

  /** The text starts with a `W` that the option string follows by a semicolon. */
  predicate ReadsW(cfg: Config, text: string, i: nat) {
    && ReadsLetters(cfg, text) && text[0] == 'W' && DeclaredAt(cfg.Options(), 'W', i)
    && i + 1 < |cfg.Options()| && cfg.Options()[i + 1] == ';'
  }

  /** The word that holds the long option behind a `W`, and how many words that takes. */
  predicate WordBehindW(s: Scanner, text: string, at: nat, word: string) {
    && s.optind + at <= |s.argv|
    && (if |text| > 1 then at == 1 && word == text[1..] else at == 2 && word == s.argv[s.optind + 1])
  }

  lemma WStep(cfg: Config, text: string, i: nat, rest: seq<string>)
    requires ReadsW(cfg, text, i)
    ensures |text| > 1 ==> WordStep(cfg, text, rest) == TakeLong(1, TryLong(cfg, text[1..], rest, false))
    ensures |text| == 1 && rest != [] ==>
              WordStep(cfg, text, rest) == TakeLong(2, TryLong(cfg, rest[0], rest[1..], false))
    ensures |text| == 1 && rest == [] ==> WordStep(cfg, text, rest) == Take(1, BadArg, None)
  {
    LettersStep(cfg, text, rest);
    PositionIs(cfg.Options(), 'W', i);
  }

  lemma WStepAt(cfg: Config, s: Scanner, text: string, i: nat, at: nat, word: string)
    requires ReadsW(cfg, text, i) && WordBehindW(s, text, at, word) && s.optind < |s.argv|
    ensures WordStep(cfg, text, s.argv[s.optind + 1..])
         == TakeLong(at, TryLong(cfg, word, s.argv[s.optind + at..], false))
  {
    var rest := s.argv[s.optind + 1..];
    WStep(cfg, text, i, rest);
    assert |text| == 1 ==> rest[0] == word && rest[1..] == s.argv[s.optind + at..];
  }

  lemma CallTakesW(cfg: Config, s: Scanner, text: string, i: nat, at: nat, word: string, h: LongResult)
    requires StandsOn(s, text) && ReadsW(cfg, text, i) && WordBehindW(s, text, at, word)
    requires h.Hit? && h == TryLong(cfg, word, s.argv[s.optind + at..], false)
    ensures Call(MachineOf(cfg), s) == Behind(s, at, h)
  {
    CallReads(cfg, s, text);
    WStepAt(cfg, s, text, i, at, word);
  }

  /** `-Wname` and `-W name` are read as `--name`, except that the latter takes one word more. */
  lemma LongOptionBehindW(cfg: Config, s: Scanner, text: string, i: nat, at: nat, word: string, key: string, k: nat)
    requires StandsOn(s, text) && ReadsW(cfg, text, i) && WordBehindW(s, text, at, word)
    requires IsKey(word, key) && StandsFor(cfg, key, false, k)
    ensures var (t, ret) := Call(MachineOf(cfg), s); LongTaken(cfg, s, t, ret, at, word, key, k)
  {
    FoundIsTaken(cfg, s, at, word, false, key, k);
    CallTakesW(cfg, s, text, i, at, word, TryLong(cfg, word, s.argv[s.optind + at..], false));
  }

  lemma NameBehindWRefused(cfg: Config, s: Scanner, text: string, i: nat, at: nat, word: string, key: string,
                           k: nat, j: nat)
    requires StandsOn(s, text) && ReadsW(cfg, text, i) && WordBehindW(s, text, at, word)
    requires IsKey(word, key) && (IsAmbiguous(cfg, key, false, k, j) || Unnamed(cfg, key, false))
    ensures var (t, ret) := Call(MachineOf(cfg), s); ret == BadCh && Moved(s, t, at, "", None)
  {
    RefusedIsHit(cfg, word, s.argv[s.optind + at..], false, key, k, j);
    CallTakesW(cfg, s, text, i, at, word, Hit(0, BadCh, None));
  }

  lemma NothingBehindW(cfg: Config, s: Scanner, i: nat)
    requires StandsOn(s, "W") && ReadsW(cfg, "W", i) && s.optind + 1 == |s.argv|
    ensures var (t, ret) := Call(MachineOf(cfg), s); ret == BadArg && Moved(s, t, 1, "", None)
  {
    CallReads(cfg, s, "W");
    WStep(cfg, "W", i, []);
    assert s.argv[s.optind + 1..] == [];
  }

  // ----- what that means for a whole parse -----

  /** The words split into the first n, which are options and their arguments, and what the others split into. */
  predicate SplitsBehind(m: Machine, words: seq<string>, n: nat)
    requires m.Valid() && n <= |words|
  {
    match Partition(m, words[n..])
    case Stuck => Partition(m, words) == Stuck
    case Split(opts, nons) => Partition(m, words) == Split(words[..n] + opts, nons)
  }

  /** The first word is a dash and a letter that is declared at i. */
  predicate LoneLetter(cfg: Config, words: seq<string>, i: nat) {
    && words != [] && |words[0]| == 2 && words[0][0] == '-' && words[0][1] != ':'
    && ReadsLetters(cfg, words[0][1..]) && DeclaredAt(cfg.Options(), words[0][1], i)
  }

  lemma SpanIsTaken(cfg: Config, words: seq<string>, n: nat, ret: Ret, arg: Option<string>)
    requires words != [] && IsOptionWord(words[0]) && words[0] != "--" && 1 <= n <= |words|
    requires WordStep(cfg, words[0][1..], words[1..]) == Take(n, ret, arg)
    ensures SplitsBehind(MachineOf(cfg), words, n)
  {
    LexIsWordStep(cfg, words[0][1..], words[1..]);
  }

  /** The word behind a letter with one colon is its argument and no operand, whatever it looks like. */
  lemma ArgumentIsNoOperand(cfg: Config, words: seq<string>, i: nat)
    requires LoneLetter(cfg, words, i) && |words| > 1
    requires Colon(cfg.Options(), i + 1) && !Colon(cfg.Options(), i + 2)
    ensures SplitsBehind(MachineOf(cfg), words, 2)
  {
    LettersStep(cfg, words[0][1..], words[1..]);
    PositionIs(cfg.Options(), words[0][1], i);
    SpanIsTaken(cfg, words, 2, Letter(words[0][1]), Some(words[1]));
  }

  /** The word behind any other letter is not. */
  lemma NextWordIsNotTaken(cfg: Config, words: seq<string>, i: nat)
    requires LoneLetter(cfg, words, i) && words[0][1] != 'W'
    requires Colon(cfg.Options(), i + 1) ==> Colon(cfg.Options(), i + 2)
    ensures SplitsBehind(MachineOf(cfg), words, 1)
  {
    LettersStep(cfg, words[0][1..], words[1..]);
    PositionIs(cfg.Options(), words[0][1], i);
    SpanIsTaken(cfg, words, 1, Letter(words[0][1]), None);
  }

  /** With the option string `a:`, the words `-a x` are an option and its argument; with `a::`, x is an operand. */
  lemma ArgumentOfA()
    ensures Partition(MachineOf(Config("a:", [], false, false)), ["-a", "x"]) == Split(["-a", "x"], [])
    ensures Partition(MachineOf(Config("a::", [], false, false)), ["-a", "x"]) == Split(["-a"], ["x"])
  {
    var one, two, words := Config("a:", [], false, false), Config("a::", [], false, false), ["-a", "x"];
    assert words[2..] == [] && words[..2] + [] == words && words[1..] == ["x"] && words[..1] + [] == ["-a"];
    ArgumentIsNoOperand(one, words, 0);
    NextWordIsNotTaken(two, words, 0);
    assert ["x"][1..] == [];
    assert Partition(MachineOf(two), ["x"]) == Split([], ["x"]);
  }
}
