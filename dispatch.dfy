/**
 * `PlaygroundConfig::run`: choose the lexers for the session's language,
 * register every pattern of every unit into one trie (stopping at the first
 * rejected pattern), then build a matcher with the fixed bounds and let it
 * scan the subject, handing each match to the caller's sink.
 *
 * The trie's pattern compiler, the matcher and the lexers belong to
 * lexer_search_lib; they enter as the two functions of an `Engine` value.
 */
module Dispatch {
  import opened Wrappers
  import opened Utf8
  import opened Config

  // ---------------------------------------------------------------------
  // Lexer dispatch

  /**
   * The lexers `run` builds, as the arguments of their `make_*_lexer` calls:
   * the C-like family with its first flag (false for C, C++, C# and Java,
   * true for Go, JavaScript, TypeScript and Kotlin; what it selects is up to
   * lexer_search_lib), and the Python-like and Rust-like families; each told
   * whether it is reading a pattern and the longest token it accepts.
   */
  datatype Lexer =
    | CLike(dialectFlag: bool, patternMode: bool, maxTokenLength: nat)
    | PythonLike(patternMode: bool, maxTokenLength: nat)
    | RustLike(patternMode: bool, maxTokenLength: nat)

  /** The same lexer with its pattern mode set to `mode`. */
  function WithMode(lx: Lexer, mode: bool): Lexer
  {
    lx.(patternMode := mode)
  }

  /** The lexer for reading a pattern of the session's language. */
  function PatternLexer(lang: Language): (lx: Lexer)
    ensures lx.patternMode && lx.maxTokenLength == MaxTokenLength
  {
    match lang
    case C | Cpp | CSharp | Java => CLike(false, true, MaxTokenLength)
    case Go | Js | Ts | Kotlin => CLike(true, true, MaxTokenLength)
    case Py => PythonLike(true, MaxTokenLength)
    case Rust => RustLike(true, MaxTokenLength)
  }

  /** The lexer for scanning the subject. */
  function SubjectLexer(lang: Language): (lx: Lexer)
    ensures !lx.patternMode && lx.maxTokenLength == MaxTokenLength
  {
    match lang
    case C | Cpp | CSharp | Java => CLike(false, false, MaxTokenLength)
    case Go | Js | Ts | Kotlin => CLike(true, false, MaxTokenLength)
    case Py => PythonLike(false, MaxTokenLength)
    case Rust => RustLike(false, MaxTokenLength)
  }

  /** Both passes pick the same lexer family and settings; only the pattern mode differs. */
  lemma PassesAgree(lang: Language)
    ensures WithMode(PatternLexer(lang), false) == SubjectLexer(lang)
    ensures PatternLexer(lang) == WithMode(SubjectLexer(lang), true)
  {
  }

  /** The language-to-family table. */
  lemma DispatchTable(lang: Language)
    ensures lang in {C, Cpp, CSharp, Java} <==> SubjectLexer(lang).CLike? && !SubjectLexer(lang).dialectFlag
    ensures lang in {Go, Js, Ts, Kotlin} <==> SubjectLexer(lang).CLike? && SubjectLexer(lang).dialectFlag
    ensures lang == Py <==> SubjectLexer(lang).PythonLike?
    ensures lang == Rust <==> SubjectLexer(lang).RustLike?
  {
  }

  // ---------------------------------------------------------------------
  // Map conversions

  /** The encodings of a set of keys. */
  ghost function EncodedKeys(enc: string -> seq<byte>, keys: set<string>): set<seq<byte>>
  {
    set k | k in keys :: enc(k)
  }

  /** An injective encoding has as many images as keys. */
  lemma {:induction false} EncodedKeysSize(enc: string -> seq<byte>, keys: set<string>)
    requires Injective(enc)
    ensures |EncodedKeys(enc, keys)| == |keys|
    decreases |keys|
  {
    if keys != {} {
      var x :| x in keys;
      var rest := keys - {x};
      EncodedKeysSize(enc, rest);
      assert EncodedKeys(enc, keys) == EncodedKeys(enc, rest) + {enc(x)};
      assert enc(x) !in EncodedKeys(enc, rest);
      assert |EncodedKeys(enc, keys)| == |EncodedKeys(enc, rest)| + 1;
      assert |keys| == |rest| + 1;
    }
  }

  /** A map re-keyed by `enc`, each value mapped by `g`. */
  function Rekey<V, W>(enc: string -> seq<byte>, m: map<string, V>, g: V -> W): map<seq<byte>, W>
    requires Injective(enc)
  {
    map k | k in m :: enc(k) := g(m[k])
  }

  /** Re-keying by an injective encoding keeps every entry, adds none, and keeps the size. */
  lemma RekeyEntries<V, W>(enc: string -> seq<byte>, m: map<string, V>, g: V -> W)
    requires Injective(enc)
    ensures forall k :: k in m ==> enc(k) in Rekey(enc, m, g) && Rekey(enc, m, g)[enc(k)] == g(m[k])
    ensures forall b :: b in Rekey(enc, m, g) ==> exists k :: k in m && b == enc(k)
    ensures |Rekey(enc, m, g)| == |m|
  {
    assert Rekey(enc, m, g).Keys == EncodedKeys(enc, m.Keys);
    EncodedKeysSize(enc, m.Keys);
  }

  /** `convert_out`: the output map with keys and values as UTF-8 bytes. */
  function ConvertOut(m: map<string, string>): (r: map<seq<byte>, seq<byte>>)
    ensures |r| == |m|
  {
    EncodeIsInjective();
    RekeyEntries(Encode, m, Encode);
    Rekey(Encode, m, Encode)
  }

  /** `convert_out` keeps every entry, adds none, and keeps the size. */
  lemma ConvertOutEntries(m: map<string, string>)
    ensures forall k :: k in m ==> Encode(k) in ConvertOut(m) && ConvertOut(m)[Encode(k)] == Encode(m[k])
    ensures forall b :: b in ConvertOut(m) ==> exists k :: k in m && b == Encode(k)
    ensures |ConvertOut(m)| == |m|
  {
    EncodeIsInjective();
    RekeyEntries(Encode, m, Encode);
  }

  /** `convert_transform`: the transform map with keys as UTF-8 bytes and values unchanged. */
  function ConvertTransform(m: map<string, string>): (r: map<seq<byte>, string>)
    ensures |r| == |m|
  {
    EncodeIsInjective();
    RekeyEntries(Encode, m, (v: string) => v);
    Rekey(Encode, m, (v: string) => v)
  }

  /** `convert_transform` keeps every entry, adds none, and keeps the size. */
  lemma ConvertTransformEntries(m: map<string, string>)
    ensures forall k :: k in m ==> Encode(k) in ConvertTransform(m) && ConvertTransform(m)[Encode(k)] == m[k]
    ensures forall b :: b in ConvertTransform(m) ==> exists k :: k in m && b == Encode(k)
    ensures |ConvertTransform(m)| == |m|
  {
    EncodeIsInjective();
    RekeyEntries(Encode, m, (v: string) => v);
  }

  // ---------------------------------------------------------------------
  // Registrations

  /** The arguments of one `add_pattern` call. */
  datatype Registration = Registration(
    pattern: seq<byte>,
    out: map<seq<byte>, seq<byte>>,
    name: string,
    group: string,
    transform: map<seq<byte>, string>,
    lexer: Lexer,
    maxTokenLength: nat)

  /** The registration of `pattern` on behalf of unit `u`. */
  function RegistrationOf(lang: Language, u: MatchingUnit, pattern: string): (r: Registration)
    ensures r.pattern == Encode(pattern)
    ensures r.out == ConvertOut(u.out) && r.transform == ConvertTransform(u.transform)
    ensures r.name == u.name && r.group == u.group
    ensures |r.out| == |u.out| && |r.transform| == |u.transform|
    ensures r.lexer == PatternLexer(lang) && r.maxTokenLength == MaxTokenLength
  {
    Registration(Encode(pattern), ConvertOut(u.out), u.name, u.group, ConvertTransform(u.transform),
                 PatternLexer(lang), MaxTokenLength)
  }

  /** The registrations of one unit, in pattern order. */
  function UnitRegistrations(lang: Language, u: MatchingUnit): (rs: seq<Registration>)
    ensures |rs| == |u.patterns|
  {
    seq(|u.patterns|, j requires 0 <= j < |u.patterns| => RegistrationOf(lang, u, u.patterns[j]))
  }

  /** `UnitRegistrations` for one language, as a function of the unit. */
  function PerUnit(lang: Language): MatchingUnit -> seq<Registration>
  {
    u => UnitRegistrations(lang, u)
  }

  /** The lists `f` gives for each element of `us`, concatenated in order. */
  function FlatMap<U, T>(f: U -> seq<T>, us: seq<U>): seq<T>
  {
    if us == [] then [] else f(us[0]) + FlatMap(f, us[1..])
  }

  lemma FlatMapSplit<U, T>(f: U -> seq<T>, us: seq<U>, i: nat)
    requires i < |us|
    ensures FlatMap(f, us[i..]) == f(us[i]) + FlatMap(f, us[i + 1..])
  {
    assert us[i..][1..] == us[i + 1..];
  }

  lemma {:induction false} FlatMapAppend<U, T>(f: U -> seq<T>, a: seq<U>, b: seq<U>)
    ensures FlatMap(f, a + b) == FlatMap(f, a) + FlatMap(f, b)
  {
    if a == [] {
      assert a + b == b;
    } else {
      assert (a + b)[1..] == a[1..] + b;
      FlatMapAppend(f, a[1..], b);
    }
  }

  lemma FlatMapAround<U, T>(f: U -> seq<T>, us: seq<U>, i: nat)
    requires i < |us|
    ensures FlatMap(f, us) == FlatMap(f, us[..i]) + (f(us[i]) + FlatMap(f, us[i + 1..]))
  {
    assert us == us[..i] + us[i..];
    FlatMapAppend(f, us[..i], us[i..]);
    FlatMapSplit(f, us, i);
  }

  lemma {:induction false} FlatMapSize<T>(f: MatchingUnit -> seq<T>, us: seq<MatchingUnit>)
    requires forall u :: |f(u)| == |u.patterns|
    ensures |FlatMap(f, us)| == TotalPatterns(us)
  {
    if us != [] {
      FlatMapSize(f, us[1..]);
    }
  }

  /** The registrations of all units: units in order, each unit's patterns in order. */
  function Registrations(lang: Language, units: seq<MatchingUnit>): (rs: seq<Registration>)
    ensures |rs| == TotalPatterns(units)
  {
    FlatMapSize(PerUnit(lang), units);
    FlatMap(PerUnit(lang), units)
  }

  lemma IndexMiddle<T>(a: seq<T>, b: seq<T>, c: seq<T>, k: nat)
    requires k < |b|
    ensures (a + (b + c))[|a| + k] == b[k]
  {
  }

  /** Element `pj` of unit `ui`'s list sits after the lists of the units before it. */
  lemma FlatMapIndex<T>(f: MatchingUnit -> seq<T>, us: seq<MatchingUnit>, ui: nat, pj: nat)
    requires forall u :: |f(u)| == |u.patterns|
    requires ui < |us| && pj < |us[ui].patterns|
    ensures TotalPatterns(us[..ui]) + pj < |FlatMap(f, us)|
    ensures FlatMap(f, us)[TotalPatterns(us[..ui]) + pj] == f(us[ui])[pj]
  {
    FlatMapAround(f, us, ui);
    FlatMapSize(f, us[..ui]);
    FlatMapSize(f, us);
    IndexMiddle(FlatMap(f, us[..ui]), f(us[ui]), FlatMap(f, us[ui + 1..]), pj);
  }

  /**
   * Pattern `pj` of unit `ui` is registered at position
   * (patterns of the units before `ui`) + `pj`, carrying its unit's name,
   * group and converted maps and the pattern lexer.
   */
  lemma RegistrationAt(lang: Language, units: seq<MatchingUnit>, ui: nat, pj: nat)
    requires ui < |units| && pj < |units[ui].patterns|
    ensures TotalPatterns(units[..ui]) + pj < |Registrations(lang, units)|
    ensures Registrations(lang, units)[TotalPatterns(units[..ui]) + pj]
         == RegistrationOf(lang, units[ui], units[ui].patterns[pj])
  {
    FlatMapIndex(PerUnit(lang), units, ui, pj);
    assert PerUnit(lang)(units[ui]) == UnitRegistrations(lang, units[ui]);
  }

  lemma GrowPrefix<T>(done: seq<T>, a: seq<T>, i: nat, before: seq<T>, x: T)
    requires i < |a| && x == a[i]
    requires before == done + a[..i]
    ensures before + [x] == done + a[..i + 1]
  {
    assert a[..i + 1] == a[..i] + [a[i]];
  }

  lemma EmptyPrefix<T>(s: seq<T>)
    ensures [] + s == s
  {
  }

  lemma SliceCons<T>(a: seq<T>, b: seq<T>, i: nat)
    requires i < |a|
    ensures a[i..] + b == [a[i]] + (a[i + 1..] + b)
  {
    assert a[i..] == [a[i]] + a[i + 1..];
  }

  /** A step of the trie's pattern compiler: the patterns so far and a new one, to `None` or an error. */
  type AddStep = (seq<Registration>, Registration) -> Option<string>

  /**
   * Registering `todo` in order after `done`: the first error stops the walk;
   * otherwise the registered sequence comes back.
   */
  function RegisterAll(add: AddStep, done: seq<Registration>, todo: seq<Registration>): (r: Result<seq<Registration>, string>)
    ensures r.Ok? ==> |r.value| == |done| + |todo| && r.value[..|done|] == done
    decreases |todo|
  {
    if todo == [] then Ok(done)
    else
      match add(done, todo[0])
      case Some(e) => Err(e)
      case None => RegisterAll(add, done + [todo[0]], todo[1..])
  }

  /** One step of the walk: the first registration is tried against `done`. */
  lemma RegisterAllCons(add: AddStep, done: seq<Registration>, r: Registration, rest: seq<Registration>)
    ensures RegisterAll(add, done, [r] + rest)
         == match add(done, r) case Some(e) => Err(e) case None => RegisterAll(add, done + [r], rest)
  {
    assert ([r] + rest)[0] == r && ([r] + rest)[1..] == rest;
  }

  /** Each of the first `j` registrations is accepted given the ones before it. */
  ghost predicate AcceptedUpTo(add: AddStep, done: seq<Registration>, todo: seq<Registration>, j: nat)
    requires j <= |todo|
  {
    forall i :: 0 <= i < j ==> add(done + todo[..i], todo[i]).None?
  }

  lemma AcceptedShift(add: AddStep, done: seq<Registration>, todo: seq<Registration>, j: nat)
    requires 0 < j <= |todo|
    requires AcceptedUpTo(add, done, todo, j)
    ensures add(done, todo[0]).None?
    ensures AcceptedUpTo(add, done + [todo[0]], todo[1..], j - 1)
  {
    assert done + todo[..0] == done;
    forall i | 0 <= i < j - 1
      ensures add(done + [todo[0]] + todo[1..][..i], todo[1..][i]).None?
    {
      assert done + [todo[0]] + todo[1..][..i] == done + todo[..i + 1];
    }
  }

  lemma AcceptedUnshift(add: AddStep, done: seq<Registration>, todo: seq<Registration>, j: nat)
    requires 0 < j <= |todo|
    requires add(done, todo[0]).None?
    requires AcceptedUpTo(add, done + [todo[0]], todo[1..], j - 1)
    ensures AcceptedUpTo(add, done, todo, j)
  {
    forall i | 0 <= i < j
      ensures add(done + todo[..i], todo[i]).None?
    {
      if i == 0 {
        assert done + todo[..0] == done;
      } else {
        assert done + todo[..i] == done + [todo[0]] + todo[1..][..i - 1];
      }
    }
  }

  /** A walk that succeeds has registered everything, in order. */
  lemma {:induction false} RegisterAllOk(add: AddStep, done: seq<Registration>, todo: seq<Registration>)
    requires RegisterAll(add, done, todo).Ok?
    ensures RegisterAll(add, done, todo).value == done + todo
    ensures AcceptedUpTo(add, done, todo, |todo|)
    decreases |todo|
  {
    if todo != [] {
      RegisterAllOk(add, done + [todo[0]], todo[1..]);
      assert done + [todo[0]] + todo[1..] == done + todo;
      AcceptedUnshift(add, done, todo, |todo|);
    }
  }

  /** If every registration is accepted, the walk succeeds. */
  lemma {:induction false} RegisterAllAccepted(add: AddStep, done: seq<Registration>, todo: seq<Registration>)
    requires AcceptedUpTo(add, done, todo, |todo|)
    ensures RegisterAll(add, done, todo) == Ok(done + todo)
    decreases |todo|
  {
    if todo == [] {
      assert done + todo == done;
    } else {
      AcceptedShift(add, done, todo, |todo|);
      RegisterAllAccepted(add, done + [todo[0]], todo[1..]);
      assert done + [todo[0]] + todo[1..] == done + todo;
    }
  }

  /** If registration `j` is the first rejected one, the walk stops with its error. */
  lemma {:induction false} RegisterAllStopsAt(add: AddStep, done: seq<Registration>, todo: seq<Registration>, j: nat, e: string)
    requires j < |todo|
    requires AcceptedUpTo(add, done, todo, j)
    requires add(done + todo[..j], todo[j]) == Some(e)
    ensures RegisterAll(add, done, todo) == Err(e)
    decreases j
  {
    if j == 0 {
      assert done + todo[..0] == done;
    } else {
      AcceptedShift(add, done, todo, j);
      assert done + [todo[0]] + todo[1..][..j - 1] == done + todo[..j];
      RegisterAllStopsAt(add, done + [todo[0]], todo[1..], j - 1, e);
    }
  }

  /** A walk that fails names the error of its first rejected registration. */
  lemma {:induction false} RegisterAllErr(add: AddStep, done: seq<Registration>, todo: seq<Registration>)
    requires RegisterAll(add, done, todo).Err?
    ensures exists j :: 0 <= j < |todo| && AcceptedUpTo(add, done, todo, j)
                     && add(done + todo[..j], todo[j]) == Some(RegisterAll(add, done, todo).error)
    decreases |todo|
  {
    var e := RegisterAll(add, done, todo).error;
    if add(done, todo[0]).Some? {
      assert done + todo[..0] == done;
      assert AcceptedUpTo(add, done, todo, 0);
    } else {
      RegisterAllErr(add, done + [todo[0]], todo[1..]);
      var j :| 0 <= j < |todo| - 1 && AcceptedUpTo(add, done + [todo[0]], todo[1..], j)
               && add(done + [todo[0]] + todo[1..][..j], todo[1..][j]) == Some(e);
      AcceptedUnshift(add, done, todo, j + 1);
      assert done + [todo[0]] + todo[1..][..j] == done + todo[..j + 1];
      assert AcceptedUpTo(add, done, todo, j + 1) && add(done + todo[..j + 1], todo[j + 1]) == Some(e);
    }
  }

  // ---------------------------------------------------------------------
  // The trie, the matcher and run

  /** The trie as `run` sees it: the registrations it has accepted so far. */
  class Trie {
    var registered: seq<Registration>

    /** `Trie::default()`: no patterns. */
    constructor ()
      ensures registered == []
    {
      registered := [];
    }

    /** `add_pattern`: the compiler either accepts the pattern, appending it, or rejects it with a message. */
    method AddPattern(add: AddStep, r: Registration) returns (res: Result<(), string>)
      modifies this
      ensures add(old(registered), r).None? ==> res == Ok(()) && registered == old(registered) + [r]
      ensures add(old(registered), r).Some? ==> res == Err(add(old(registered), r).value) && registered == old(registered)
    {
      match add(registered, r)
      case None =>
        registered := registered + [r];
        res := Ok(());
      case Some(e) =>
        res := Err(e);
    }
  }

  /** `Matcher::new(&trie, max_concurrent_matches, max_token_length, group_cap)`. */
  datatype Matcher = Matcher(patterns: seq<Registration>, maxConcurrentMatches: nat, maxTokenLength: nat, groupCap: nat)

  function NewMatcher(patterns: seq<Registration>): (m: Matcher)
    ensures m.patterns == patterns
    ensures m.maxConcurrentMatches == 5000 && m.maxTokenLength == 5000 && m.groupCap == 10
  {
    Matcher(patterns, MaxConcurrentMatches, MaxTokenLength, GroupCap)
  }

  datatype Position = Position(line: nat, column: nat)

  /** A match handed to the sink; only its extent is modelled. */
  datatype FullMatch = FullMatch(start: Position, end: Position)

  /** What `process_and_drain` does: the matches it handed to the sink, in order, and its error if any. */
  datatype Drained = Drained(delivered: seq<FullMatch>, error: Option<string>)

  /** lexer_search_lib as `run` uses it. */
  datatype Engine = Engine(
    addPattern: AddStep,
    drain: (Matcher, Lexer, seq<byte>) -> Drained)

  /** The matcher `run` builds, or `None` when a registration is rejected. */
  function BuiltMatcher(cfg: PlaygroundConfig, engine: Engine): (m: Option<Matcher>)
    ensures m.Some? ==> m.value.patterns == Registrations(cfg.language, cfg.lhs)
    ensures m.Some? ==> |m.value.patterns| == TotalPatterns(cfg.lhs)
  {
    var regs := Registrations(cfg.language, cfg.lhs);
    match RegisterAll(engine.addPattern, [], regs)
    case Err(_) => None
    case Ok(done) =>
      RegisterAllOk(engine.addPattern, [], regs);
      EmptyPrefix(regs);
      Some(NewMatcher(done))
  }

  /** What `run` returns, and the matches its sink receives, in order. */
  function RunResult(cfg: PlaygroundConfig, engine: Engine): (res: (Result<(), string>, seq<FullMatch>))
    ensures BuiltMatcher(cfg, engine).None? ==> res.0.Err? && res.1 == []
    ensures BuiltMatcher(cfg, engine).Some? ==>
              res.1 == engine.drain(BuiltMatcher(cfg, engine).value, SubjectLexer(cfg.language), Encode(cfg.subject)).delivered
  {
    match RegisterAll(engine.addPattern, [], Registrations(cfg.language, cfg.lhs))
    case Err(e) => (Err(e), [])
    case Ok(regs) =>
      var d := engine.drain(NewMatcher(regs), SubjectLexer(cfg.language), Encode(cfg.subject));
      (if d.error.Some? then Err(d.error.value) else Ok(()), d.delivered)
  }

  /** Entering unit `ui`: its registrations come first among those still to walk. */
  lemma EnterUnit(add: AddStep, done: seq<Registration>, lang: Language, units: seq<MatchingUnit>, ui: nat,
                  target: Result<seq<Registration>, string>)
    requires ui < |units|
    requires RegisterAll(add, done, FlatMap(PerUnit(lang), units[ui..])) == target
    ensures RegisterAll(add, done, UnitRegistrations(lang, units[ui]) + FlatMap(PerUnit(lang), units[ui + 1..])) == target
  {
    FlatMapSplit(PerUnit(lang), units, ui);
    assert UnitRegistrations(lang, units[ui]) == PerUnit(lang)(units[ui]);
  }

  /**
   * Part way through one unit: the trie holds `start` and the unit's first `pj` registrations,
   * and walking the rest of the unit and then `later` from there gives `target`.
   */
  ghost predicate UnitProgress(add: AddStep, lang: Language, unit: MatchingUnit, start: seq<Registration>,
                               now: seq<Registration>, pj: nat, later: seq<Registration>,
                               target: Result<seq<Registration>, string>)
  {
    pj <= |unit.patterns| &&
    now == start + UnitRegistrations(lang, unit)[..pj] &&
    RegisterAll(add, now, UnitRegistrations(lang, unit)[pj..] + later) == target
  }

  /** Before the first pattern of a unit, nothing of it is registered yet. */
  lemma StartUnit(add: AddStep, lang: Language, unit: MatchingUnit, start: seq<Registration>,
                  later: seq<Registration>, target: Result<seq<Registration>, string>)
    requires RegisterAll(add, start, UnitRegistrations(lang, unit) + later) == target
    ensures UnitProgress(add, lang, unit, start, start, 0, later, target)
  {
    var rs := UnitRegistrations(lang, unit);
    assert rs[0..] == rs && start + rs[..0] == start;
  }

  /**
   * Registering pattern `pj` of `unit`: accepted, the trie holds one more of the unit's
   * registrations and the walk moves on; rejected, the walk's outcome is its error.
   */
  lemma StepPattern(add: AddStep, lang: Language, unit: MatchingUnit, start: seq<Registration>,
                    now: seq<Registration>, pj: nat, later: seq<Registration>,
                    target: Result<seq<Registration>, string>)
    requires pj < |unit.patterns|
    requires UnitProgress(add, lang, unit, start, now, pj, later, target)
    ensures var r := RegistrationOf(lang, unit, unit.patterns[pj]);
            match add(now, r)
            case Some(e) => target == Err(e)
            case None => UnitProgress(add, lang, unit, start, now + [r], pj + 1, later, target)
  {
    var rs := UnitRegistrations(lang, unit);
    assert rs[pj] == RegistrationOf(lang, unit, unit.patterns[pj]);
    SliceCons(rs, later, pj);
    RegisterAllCons(add, now, rs[pj], rs[pj + 1..] + later);
    GrowPrefix(start, rs, pj, now, rs[pj]);
  }

  /** After the last pattern of a unit, the trie gained exactly the unit's registrations. */
  lemma FinishUnit(add: AddStep, lang: Language, unit: MatchingUnit, start: seq<Registration>,
                   now: seq<Registration>, later: seq<Registration>, target: Result<seq<Registration>, string>)
    requires UnitProgress(add, lang, unit, start, now, |unit.patterns|, later, target)
    ensures now == start + UnitRegistrations(lang, unit)
    ensures RegisterAll(add, now, later) == target
  {
    var rs := UnitRegistrations(lang, unit);
    assert rs[|rs|..] + later == later && rs[..|rs|] == rs;
  }

  /**
   * The inner loop of `run`: register the patterns of one unit in order,
   * stopping at the first rejection. `later` stands for the registrations of
   * the units after this one, and `target` for the outcome of the whole walk.
   */
  method RegisterUnit(trie: Trie, add: AddStep, lang: Language, unit: MatchingUnit,
                      ghost later: seq<Registration>, ghost target: Result<seq<Registration>, string>)
    returns (res: Result<(), string>)
    requires RegisterAll(add, trie.registered, UnitRegistrations(lang, unit) + later) == target
    modifies trie
    ensures res.Ok? ==> trie.registered == old(trie.registered) + UnitRegistrations(lang, unit)
    ensures res.Ok? ==> RegisterAll(add, trie.registered, later) == target
    ensures res.Err? ==> target == Err(res.error)
  {
    ghost var start := trie.registered;
    StartUnit(add, lang, unit, start, later, target);
    var pj := 0;
    while pj < |unit.patterns|
      invariant UnitProgress(add, lang, unit, start, trie.registered, pj, later, target)
    {
      StepPattern(add, lang, unit, start, trie.registered, pj, later, target);
      var r := RegistrationOf(lang, unit, unit.patterns[pj]);
      var added := trie.AddPattern(add, r);
      if added.Err? {
        return added;
      }
      pj := pj + 1;
    }
    FinishUnit(add, lang, unit, start, trie.registered, later, target);
    return Ok(());
  }

  /** `run`: register every pattern under the `?` early exit, then build the matcher and drain the subject. */
  method Run(cfg: PlaygroundConfig, engine: Engine) returns (outcome: Result<(), string>, delivered: seq<FullMatch>)
    ensures (outcome, delivered) == RunResult(cfg, engine)
  {
    var lang := cfg.language;
    var units := cfg.lhs;
    ghost var target := RegisterAll(engine.addPattern, [], Registrations(lang, units));
    var trie := new Trie();
    assert units[0..] == units;
    var ui := 0;
    while ui < |units|
      invariant 0 <= ui <= |units|
      invariant RegisterAll(engine.addPattern, trie.registered, FlatMap(PerUnit(lang), units[ui..])) == target
    {
      EnterUnit(engine.addPattern, trie.registered, lang, units, ui, target);
      var added := RegisterUnit(trie, engine.addPattern, lang, units[ui], FlatMap(PerUnit(lang), units[ui + 1..]), target);
      if added.Err? {
        return Err(added.error), [];
      }
      ui := ui + 1;
    }
    assert units[ui..] == [];
    var matcher := NewMatcher(trie.registered);
    var drained := engine.drain(matcher, SubjectLexer(lang), Encode(cfg.subject));
    delivered := drained.delivered;
    if drained.error.Some? {
      outcome := Err(drained.error.value);
    } else {
      outcome := Ok(());
    }
  }

  /**
   * When the pattern at flattened position `j` is the first one rejected, `run`
   * returns that error, builds no matcher and the sink receives nothing.
   */
  lemma RunAbortsOnFirstError(cfg: PlaygroundConfig, engine: Engine, j: nat, e: string)
    requires j < TotalPatterns(cfg.lhs)
    requires AcceptedUpTo(engine.addPattern, [], Registrations(cfg.language, cfg.lhs), j)
    requires engine.addPattern(Registrations(cfg.language, cfg.lhs)[..j], Registrations(cfg.language, cfg.lhs)[j]) == Some(e)
    ensures RunResult(cfg, engine) == (Err(e), [])
    ensures BuiltMatcher(cfg, engine) == None
  {
    var regs := Registrations(cfg.language, cfg.lhs);
    EmptyPrefix(regs[..j]);
    RegisterAllStopsAt(engine.addPattern, [], regs, j, e);
  }

  /** A rejected registration is always the first one rejected, and the sink then receives nothing. */
  lemma RunErrNamesFirstRejection(cfg: PlaygroundConfig, engine: Engine)
    requires BuiltMatcher(cfg, engine).None?
    ensures RunResult(cfg, engine).0.Err? && RunResult(cfg, engine).1 == []
    ensures exists j :: 0 <= j < TotalPatterns(cfg.lhs)
                     && AcceptedUpTo(engine.addPattern, [], Registrations(cfg.language, cfg.lhs), j)
                     && engine.addPattern([] + Registrations(cfg.language, cfg.lhs)[..j], Registrations(cfg.language, cfg.lhs)[j])
                        == Some(RunResult(cfg, engine).0.error)
  {
    RegisterAllErr(engine.addPattern, [], Registrations(cfg.language, cfg.lhs));
  }

  /**
   * The matcher is built exactly when every pattern is accepted; it then holds
   * all the registrations, one per pattern, with bounds 5000, 5000 and 10.
   */
  lemma RunBuildsMatcher(cfg: PlaygroundConfig, engine: Engine)
    ensures BuiltMatcher(cfg, engine).Some?
        <==> AcceptedUpTo(engine.addPattern, [], Registrations(cfg.language, cfg.lhs), TotalPatterns(cfg.lhs))
    ensures BuiltMatcher(cfg, engine).Some? ==>
              && BuiltMatcher(cfg, engine).value.patterns == Registrations(cfg.language, cfg.lhs)
              && |BuiltMatcher(cfg, engine).value.patterns| == TotalPatterns(cfg.lhs)
              && BuiltMatcher(cfg, engine).value.maxConcurrentMatches == 5000
              && BuiltMatcher(cfg, engine).value.maxTokenLength == 5000
              && BuiltMatcher(cfg, engine).value.groupCap == 10
  {
    var regs := Registrations(cfg.language, cfg.lhs);
    if RegisterAll(engine.addPattern, [], regs).Ok? {
      RegisterAllOk(engine.addPattern, [], regs);
      EmptyPrefix(regs);
    }
    if AcceptedUpTo(engine.addPattern, [], regs, |regs|) {
      RegisterAllAccepted(engine.addPattern, [], regs);
    }
  }

  /** Once every pattern is accepted, the sink receives what the matcher delivers on the subject's bytes. */
  lemma RunDrivesMatcher(cfg: PlaygroundConfig, engine: Engine)
    requires BuiltMatcher(cfg, engine).Some?
    ensures var d := engine.drain(BuiltMatcher(cfg, engine).value, SubjectLexer(cfg.language), Encode(cfg.subject));
            RunResult(cfg, engine).1 == d.delivered
            && (RunResult(cfg, engine).0.Ok? <==> d.error.None?)
  {
  }
}
