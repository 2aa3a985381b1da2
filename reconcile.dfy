/** The rules that keep the server's best solutions, the autosaved drafts and
    the editor buffer in agreement, stated on values. The `Session` class
    applies them to its state. */
module Reconcile {
  import opened Wrappers
  import opened Metrics
  import opened LocalStorage

  /** An entry of the language registry `langs`. */
  datatype LangInfo = LangInfo(name: string, example: string)

  /** The language the editor falls back to. */
  const Fallback: string := "python"

  /** The language that is scored in bytes only. */
  const Assembly: string := "assembly"

  /** `solutions`: one dictionary from language to best code per metric. */
  datatype Solutions = Solutions(bytes: map<string, string>, chars: map<string, string>)
  {
    function Of(m: Metric): map<string, string>
    {
      match m
      case Bytes => bytes
      case Chars => chars
    }

    /** `solutions[m][lang] = code`. */
    function With(m: Metric, lang: string, code: string): (r: Solutions)
      ensures r.Of(m) == Of(m)[lang := code]
      ensures r.Of(Other(m)) == Of(Other(m))
    {
      match m
      case Bytes => Solutions(bytes[lang := code], chars)
      case Chars => Solutions(bytes, chars[lang := code])
    }
  }

  /** `getSolutionCode`: the server's code, or `''` when there is none. */
  function SolutionCode(sols: Solutions, lang: string, m: Metric): (r: string)
    ensures lang !in sols.Of(m) ==> r == ""
    ensures lang in sols.Of(m) ==> r == sols.Of(m)[lang]
  {
    if lang in sols.Of(m) then sols.Of(m)[lang] else ""
  }

  // ---------------------------------------------------------------------
  // Language selection (`onhashchange`).

  /** `hashLang = location.hash.slice(1) || localStorage.getItem('lang')`,
      then `hashLang && langs[hashLang] ? hashLang : 'python'`. */
  function ResolveLang(fragment: string, stored: Option<string>, langs: map<string, LangInfo>): (r: string)
    ensures Fallback in langs ==> r in langs
    ensures fragment != "" && fragment in langs ==> r == fragment
    ensures fragment != "" && fragment !in langs ==> r == Fallback
    ensures fragment == "" && Truthy(stored) && stored.value in langs ==> r == stored.value
    ensures fragment == "" && !(Truthy(stored) && stored.value in langs) ==> r == Fallback
  {
    var hashLang := if fragment != "" then Some(fragment) else stored;
    if Truthy(hashLang) && hashLang.value in langs then hashLang.value else Fallback
  }

  // ---------------------------------------------------------------------
  // Display rule (`setCodeForLangAndSolution`).

  /** Metric auto-correction: a Chars selection whose two server codes agree,
      with a draft saved for Bytes only, moves to Bytes; nothing else moves. */
  function CorrectedMetric(active: Metric, db0: string, db1: string, ls0: Option<string>, ls1: Option<string>): (r: Metric)
    ensures r == active || r == Bytes
    ensures r != active <==> (active == Chars && db0 == db1 && Truthy(ls0) && !Truthy(ls1))
  {
    if active == Chars && db0 == db1 && Truthy(ls0) && !Truthy(ls1) then Bytes else active
  }

  /** `getItem(key) || getSolutionCode(lang, solution) || langs[lang].example`. */
  function DisplayedCode(local: Option<string>, server: string, example: string): (r: string)
    ensures r == "" <==> !Truthy(local) && server == "" && example == ""
    ensures (local.Some? && r == local.value) || r == server || r == example
  {
    if Truthy(local) then local.value else if server != "" then server else example
  }

  /** Reference definition of a strict priority list: the first non-empty
      candidate wins, and the last one is the answer when all are empty. */
  function FirstNonEmpty(candidates: seq<string>): (r: string)
    requires candidates != []
    ensures r in candidates
  {
    if |candidates| == 1 || candidates[0] != "" then candidates[0]
    else FirstNonEmpty(candidates[1..])
  }

  function OrEmpty(o: Option<string>): string
  {
    if o.Some? then o.value else ""
  }

  /** The display rule is the priority list draft, server code, example. */
  lemma DisplayPriority(local: Option<string>, server: string, example: string)
    ensures DisplayedCode(local, server, example) == FirstNonEmpty([OrEmpty(local), server, example])
    ensures Truthy(local) ==> DisplayedCode(local, server, example) == local.value
  {
    var c := [OrEmpty(local), server, example];
    if !Truthy(local) && server == "" {
      assert c[1..][1..] == [example];
    }
  }

  // ---------------------------------------------------------------------
  // Autosave rule (the editor's `dispatch`).

  /** `code && (code !== serverCode || !savedInDB) && code !== langs[lang].example`. */
  predicate WorthSaving(code: string, server: string, savedInDB: bool, example: string)
  {
    code != "" && (code != server || !savedInDB) && code != example
  }

  /** Store the edited code under the draft key when it is worth keeping,
      remove the draft otherwise. */
  function AutoSaved(st: Store, key: string, code: string, server: string, savedInDB: bool, example: string): (r: Store)
    ensures forall k :: k != key ==> GetItem(r, k) == GetItem(st, k)
  {
    if WorthSaving(code, server, savedInDB, example) then SetItem(st, key, code) else RemoveItem(st, key)
  }

  /** After an edit the draft key holds the code exactly when the code is
      worth saving, and is absent otherwise. */
  lemma AutoSaveOutcome(st: Store, key: string, code: string, server: string, savedInDB: bool, example: string)
    ensures var r := AutoSaved(st, key, code, server, savedInDB, example);
      (GetItem(r, key) == Some(code) <==> WorthSaving(code, server, savedInDB, example)) &&
      (!WorthSaving(code, server, savedInDB, example) <==> key !in r)
  {
  }

  /** A surviving draft is never empty, never the example, and never the
      server's own code while the user's solutions are saved in the database. */
  lemma AutoSavedDraftIsUseful(st: Store, key: string, code: string, server: string, savedInDB: bool, example: string)
    requires key in AutoSaved(st, key, code, server, savedInDB, example)
    ensures var d := AutoSaved(st, key, code, server, savedInDB, example)[key];
      d == code && d != "" && d != example && (savedInDB ==> d != server)
  {
  }

  /** While there is no server code, `savedInDB` makes no difference to the
      autosave rule; this is why page load may assume it before any reply
      says whether the golfer is logged in. */
  lemma AutoSaveIgnoresSavedInDBWithoutServerCode(st: Store, key: string, code: string, example: string)
    ensures AutoSaved(st, key, code, "", true, example) == AutoSaved(st, key, code, "", false, example)
  {
  }

  /** Running the rule twice on the same edit is running it once. */
  lemma AutoSaveIdempotent(st: Store, key: string, code: string, server: string, savedInDB: bool, example: string)
    ensures var once := AutoSaved(st, key, code, server, savedInDB, example);
      AutoSaved(once, key, code, server, savedInDB, example) == once
  {
  }

  // ---------------------------------------------------------------------
  // Solution picker (`refreshScores`).

  /** The four conflict conditions of `refreshScores`. */
  predicate ShowPicker(db0: string, db1: string, ls0: Option<string>, ls1: Option<string>, active: Metric)
  {
    || (db0 != "" && db1 != "" && db0 != db1)
    || (Truthy(ls0) && Truthy(ls1) && ls0.value != ls1.value)
    || (db0 != "" && Truthy(ls1) && db0 != ls1.value && active == Bytes)
    || (Truthy(ls0) && db1 != "" && ls0.value != db1 && active == Chars)
  }

  /** The condition treats the two metrics alike: swapping every Bytes source
      with its Chars source and the active metric gives the same answer. */
  lemma PickerSymmetric(db0: string, db1: string, ls0: Option<string>, ls1: Option<string>, active: Metric)
    ensures ShowPicker(db0, db1, ls0, ls1, active) == ShowPicker(db1, db0, ls1, ls0, Other(active))
  {
  }

  /** Two different server solutions always show the picker. */
  lemma PickerOnServerConflict(db0: string, db1: string, ls0: Option<string>, ls1: Option<string>, active: Metric)
    requires db0 != "" && db1 != "" && db0 != db1
    ensures ShowPicker(db0, db1, ls0, ls1, active)
  {
  }

  /** When every non-empty source holds the same code there is nothing to
      choose between, and the picker stays hidden. */
  lemma PickerHiddenWhenAllAgree(c: string, db0: string, db1: string, ls0: Option<string>, ls1: Option<string>, active: Metric)
    requires db0 == "" || db0 == c
    requires db1 == "" || db1 == c
    requires !Truthy(ls0) || ls0.value == c
    requires !Truthy(ls1) || ls1.value == c
    ensures !ShowPicker(db0, db1, ls0, ls1, active)
  {
  }

  /** The non-empty codes the four sources offer. */
  function Candidates(db0: string, db1: string, ls0: Option<string>, ls1: Option<string>): set<string>
  {
    {db0, db1, OrEmpty(ls0), OrEmpty(ls1)} - {""}
  }

  /** A shown picker always has two different non-empty codes behind it. */
  lemma PickerMeansTwoCodes(db0: string, db1: string, ls0: Option<string>, ls1: Option<string>, active: Metric)
    requires ShowPicker(db0, db1, ls0, ls1, active)
    ensures |Candidates(db0, db1, ls0, ls1)| >= 2
  {
    var c := Candidates(db0, db1, ls0, ls1);
    var a, b;
    if db0 != "" && db1 != "" && db0 != db1 {
      a, b := db0, db1;
    } else if Truthy(ls0) && Truthy(ls1) && ls0.value != ls1.value {
      a, b := ls0.value, ls1.value;
    } else if db0 != "" && Truthy(ls1) && db0 != ls1.value {
      a, b := db0, ls1.value;
    } else {
      a, b := ls0.value, db1;
    }
    assert {a, b} <= c;
    assert |{a, b}| == 2;
    SubsetCard({a, b}, c);
  }

  lemma SubsetCard(x: set<string>, y: set<string>)
    requires x <= y
    ensures |x| <= |y|
  {
    assert y == x + (y - x);
  }

  /** `hideDeleteBtn = experimental || (!dbBytes && !dbChars)`. */
  function DeleteHidden(experimental: bool, db0: string, db1: string): (r: bool)
    ensures !r <==> !experimental && (db0 != "" || db1 != "")
  {
    experimental || (db0 == "" && db1 == "")
  }

  /** What one option of the shown picker offers: the score of the server
      code for that metric, if there is one, and whether it can be clicked. */
  datatype PickerOption = PickerOption(metric: Metric, score: Option<nat>, selectable: bool)

  function PickerEntry(sols: Solutions, lang: string, active: Metric, m: Metric): (o: PickerOption)
    ensures o.metric == m
    ensures o.selectable <==> m != active
    ensures o.score.Some? <==> SolutionCode(sols, lang, m) != ""
    ensures o.score.Some? ==> o.score.value == Score(m, SolutionCode(sols, lang, m))
  {
    var code := SolutionCode(sols, lang, m);
    PickerOption(m, if code != "" then Some(Score(m, code)) else None, m != active)
  }

  // ---------------------------------------------------------------------
  // Restore link (`updateRestoreLinkVisibility`).

  /** The link is shown unless the server has no code or the editor holds it. */
  predicate RestoreLinkVisible(server: string, editor: string)
  {
    server != "" && editor != server
  }

  /** Restoring the server code hides the link. The autosave run that
      follows drops the draft while the solution is saved in the database,
      and otherwise makes the server code the draft (unless it is the
      example). */
  lemma RestoreHidesLink(st: Store, key: string, server: string, savedInDB: bool, example: string)
    ensures !RestoreLinkVisible(server, server)
    ensures savedInDB ==> key !in AutoSaved(st, key, server, server, savedInDB, example)
    ensures !savedInDB && server != "" && server != example ==>
      GetItem(AutoSaved(st, key, server, server, savedInDB, example), key) == Some(server)
  {
  }

  // ---------------------------------------------------------------------
  // Submission merge (`submit`, after the response).

  /** Whether a passing submission replaces the server code for one metric:
      there was none, or it scores no worse (ties replace). */
  predicate Improves(m: Metric, code: string, current: string)
  {
    current == "" || Score(m, code) <= Score(m, current)
  }

  /** One iteration of the first loop over `[0, 1]`: replace the solution
      and, when saved in the database, drop a draft identical to it. */
  function PassStep(sols: Solutions, st: Store, hole: string, lang: string, code: string, savedInDB: bool, m: Metric): (r: (Solutions, Store))
    ensures !Improves(m, code, SolutionCode(sols, lang, m)) ==> r == (sols, st)
    ensures Improves(m, code, SolutionCode(sols, lang, m)) ==> r.0 == sols.With(m, lang, code)
    ensures var key := AutoSaveKey(hole, lang, m);
      Improves(m, code, SolutionCode(sols, lang, m)) ==>
        GetItem(r.1, key) == if savedInDB && GetItem(st, key) == Some(code) then None else GetItem(st, key)
    ensures forall k :: k != AutoSaveKey(hole, lang, m) ==> GetItem(r.1, k) == GetItem(st, k)
  {
    if Improves(m, code, SolutionCode(sols, lang, m)) then
      var key := AutoSaveKey(hole, lang, m);
      (sols.With(m, lang, code), if savedInDB && GetItem(st, key) == Some(code) then RemoveItem(st, key) else st)
    else
      (sols, st)
  }

  /** The first `n` iterations of that loop. */
  function PassLoop(sols: Solutions, st: Store, hole: string, lang: string, code: string, savedInDB: bool, n: nat): (Solutions, Store)
    requires n <= 2
  {
    if n == 0 then (sols, st)
    else
      var p := PassLoop(sols, st, hole, lang, code, savedInDB, n - 1);
      PassStep(p.0, p.1, hole, lang, code, savedInDB, FromIndex(n - 1))
  }

  /** The server solutions after a passing submission. */
  function Merged(sols: Solutions, st: Store, hole: string, lang: string, code: string, savedInDB: bool): Solutions
  {
    PassLoop(sols, st, hole, lang, code, savedInDB, 2).0
  }

  /** The drafts after the first loop. */
  function Evicted(sols: Solutions, st: Store, hole: string, lang: string, code: string, savedInDB: bool): Store
  {
    PassLoop(sols, st, hole, lang, code, savedInDB, 2).1
  }

  /** For each metric independently, the submitted code replaces the
      language's solution iff there was none or it scores no worse; all other
      languages keep theirs. */
  lemma {:induction false} MergePerMetric(sols: Solutions, st: Store, hole: string, lang: string, code: string, savedInDB: bool, m: Metric)
    ensures Merged(sols, st, hole, lang, code, savedInDB).Of(m) ==
      if Improves(m, code, SolutionCode(sols, lang, m)) then sols.Of(m)[lang := code] else sols.Of(m)
  {
    assert PassLoop(sols, st, hole, lang, code, savedInDB, 0) == (sols, st);
    var p1 := PassLoop(sols, st, hole, lang, code, savedInDB, 1);
    assert p1 == PassStep(sols, st, hole, lang, code, savedInDB, Bytes);
    assert p1.0.Of(Chars) == sols.Of(Chars);
    assert SolutionCode(p1.0, lang, Chars) == SolutionCode(sols, lang, Chars);
    var p2 := PassStep(p1.0, p1.1, hole, lang, code, savedInDB, Chars);
    assert p2.0.Of(Bytes) == p1.0.Of(Bytes);
  }

  /** What the first loop leaves under the draft key of metric `m`: the
      draft is dropped exactly when the solutions are saved in the database,
      the code replaced that metric's solution and the draft is the code. */
  lemma {:induction false} EvictedRule(sols: Solutions, st: Store, hole: string, lang: string, code: string, savedInDB: bool, m: Metric)
    ensures var key := AutoSaveKey(hole, lang, m);
      GetItem(Evicted(sols, st, hole, lang, code, savedInDB), key) ==
        if savedInDB && Improves(m, code, SolutionCode(sols, lang, m)) && GetItem(st, key) == Some(code)
        then None else GetItem(st, key)
    ensures forall k :: k != AutoSaveKey(hole, lang, Bytes) && k != AutoSaveKey(hole, lang, Chars) ==>
      GetItem(Evicted(sols, st, hole, lang, code, savedInDB), k) == GetItem(st, k)
  {
    MetricKeysDistinct(hole, lang);
    assert PassLoop(sols, st, hole, lang, code, savedInDB, 0) == (sols, st);
    var p1 := PassLoop(sols, st, hole, lang, code, savedInDB, 1);
    assert p1 == PassStep(sols, st, hole, lang, code, savedInDB, Bytes);
    assert SolutionCode(p1.0, lang, Chars) == SolutionCode(sols, lang, Chars);
    var p2 := PassStep(p1.0, p1.1, hole, lang, code, savedInDB, Chars);
    assert p2 == PassLoop(sols, st, hole, lang, code, savedInDB, 2);
  }

  /** Without the database the first loop leaves every draft alone. */
  lemma {:induction false} AnonymousMergeKeepsDrafts(sols: Solutions, st: Store, hole: string, lang: string, code: string)
    ensures Evicted(sols, st, hole, lang, code, false) == st
  {
    var ev := Evicted(sols, st, hole, lang, code, false);
    EvictedRule(sols, st, hole, lang, code, false, Bytes);
    EvictedRule(sols, st, hole, lang, code, false, Chars);
    forall k
      ensures GetItem(ev, k) == GetItem(st, k)
    {
    }
    SameReads(ev, st);
  }

  /** The submitted code becomes the solution of metric `m` exactly when it
      scores no worse under `m`; a tie replaces the old code. */
  lemma MergeReplaces(sols: Solutions, st: Store, hole: string, lang: string, code: string, savedInDB: bool, m: Metric)
    requires SolutionCode(sols, lang, m) != ""
    requires Score(m, code) <= Score(m, SolutionCode(sols, lang, m))
    ensures SolutionCode(Merged(sols, st, hole, lang, code, savedInDB), lang, m) == code
  {
    MergePerMetric(sols, st, hole, lang, code, savedInDB, m);
  }

  /** The recorded best never gets worse under either metric. */
  lemma MergeNeverWorsens(sols: Solutions, st: Store, hole: string, lang: string, code: string, savedInDB: bool, m: Metric)
    requires SolutionCode(sols, lang, m) != ""
    ensures var after := SolutionCode(Merged(sols, st, hole, lang, code, savedInDB), lang, m);
      Score(m, after) <= Score(m, SolutionCode(sols, lang, m))
  {
    MergePerMetric(sols, st, hole, lang, code, savedInDB, m);
  }

  /** One iteration of the second loop over `[0, 1]` (the draft clean-up or
      re-autosave for metric `m`). */
  function CacheStep(st: Store, sols: Solutions, hole: string, lang: string, savedInDB: bool, example: string, m: Metric): (r: Store)
    ensures forall k :: k != AutoSaveKey(hole, lang, m) ==> GetItem(r, k) == GetItem(st, k)
  {
    var key := AutoSaveKey(hole, lang, m);
    var db0 := SolutionCode(sols, lang, Bytes);
    var db1 := SolutionCode(sols, lang, Chars);
    var dbm := SolutionCode(sols, lang, m);
    if savedInDB then
      var autoSaveCode := GetItem(st, key);
      if autoSaveCode == Some(db0) || autoSaveCode == Some(db1) then RemoveItem(st, key) else st
    else if dbm != "" then
      if (m == Bytes || db0 != dbm) && dbm != example then SetItem(st, key, dbm) else RemoveItem(st, key)
    else
      st
  }

  function CacheLoop(st: Store, sols: Solutions, hole: string, lang: string, savedInDB: bool, example: string, n: nat): Store
    requires n <= 2
  {
    if n == 0 then st
    else CacheStep(CacheLoop(st, sols, hole, lang, savedInDB, example, n - 1), sols, hole, lang, savedInDB, example, FromIndex(n - 1))
  }

  /** The drafts after the second loop. */
  function CleanedUp(st: Store, sols: Solutions, hole: string, lang: string, savedInDB: bool, example: string): Store
  {
    CacheLoop(st, sols, hole, lang, savedInDB, example, 2)
  }

  /** What the second loop leaves under the draft key of metric `m`. */
  function CacheRule(before: Option<string>, sols: Solutions, lang: string, savedInDB: bool, example: string, m: Metric): Option<string>
  {
    var db0 := SolutionCode(sols, lang, Bytes);
    var db1 := SolutionCode(sols, lang, Chars);
    var dbm := SolutionCode(sols, lang, m);
    if savedInDB then
      (if before == Some(db0) || before == Some(db1) then None else before)
    else if dbm == "" then before
    else if m == Chars && dbm == db0 then None
    else if dbm == example then None
    else Some(dbm)
  }

  /** The second loop applies the rule to both draft keys of the language
      and touches no other key. */
  lemma {:induction false} CleanedUpRule(st: Store, sols: Solutions, hole: string, lang: string, savedInDB: bool, example: string)
    ensures var r := CleanedUp(st, sols, hole, lang, savedInDB, example);
      && (forall m :: GetItem(r, AutoSaveKey(hole, lang, m)) == CacheRule(GetItem(st, AutoSaveKey(hole, lang, m)), sols, lang, savedInDB, example, m))
      && (forall k :: k != AutoSaveKey(hole, lang, Bytes) && k != AutoSaveKey(hole, lang, Chars) ==> GetItem(r, k) == GetItem(st, k))
  {
    var k0 := AutoSaveKey(hole, lang, Bytes);
    var k1 := AutoSaveKey(hole, lang, Chars);
    MetricKeysDistinct(hole, lang);
    assert CacheLoop(st, sols, hole, lang, savedInDB, example, 0) == st;
    var s1 := CacheLoop(st, sols, hole, lang, savedInDB, example, 1);
    assert s1 == CacheStep(st, sols, hole, lang, savedInDB, example, Bytes);
    var r := CacheStep(s1, sols, hole, lang, savedInDB, example, Chars);
    assert GetItem(s1, k1) == GetItem(st, k1);
    assert GetItem(r, k0) == GetItem(s1, k0);
  }

  /** With the user's solutions saved in the database, no draft that equals
      either server solution survives a submission; other drafts stay. */
  lemma LoggedInDropsRedundantDrafts(st: Store, sols: Solutions, hole: string, lang: string, example: string, m: Metric)
    ensures var d := GetItem(CleanedUp(st, sols, hole, lang, true, example), AutoSaveKey(hole, lang, m));
      var before := GetItem(st, AutoSaveKey(hole, lang, m));
      && (d.Some? ==> d == before && d.value != SolutionCode(sols, lang, Bytes) && d.value != SolutionCode(sols, lang, Chars))
      && (before.Some? && before.value != SolutionCode(sols, lang, Bytes) && before.value != SolutionCode(sols, lang, Chars) ==> d == before)
  {
    CleanedUpRule(st, sols, hole, lang, true, example);
  }

  /** For an anonymous (or experimental) session with a server solution for
      both metrics, the drafts written back never make the picker appear on
      their own: it shows exactly when the two server solutions differ. */
  lemma {:induction false} AnonymousNoSpuriousPicker(st: Store, sols: Solutions, hole: string, lang: string, example: string, active: Metric)
    requires SolutionCode(sols, lang, Bytes) != "" && SolutionCode(sols, lang, Chars) != ""
    ensures var r := CleanedUp(st, sols, hole, lang, false, example);
      var db0 := SolutionCode(sols, lang, Bytes);
      var db1 := SolutionCode(sols, lang, Chars);
      ShowPicker(db0, db1, GetItem(r, AutoSaveKey(hole, lang, Bytes)), GetItem(r, AutoSaveKey(hole, lang, Chars)), active) <==> db0 != db1
  {
    CleanedUpRule(st, sols, hole, lang, false, example);
  }

  /** The draft removal inside the first loop changes nothing in the end:
      with the solutions saved in the database, the second loop removes the
      same drafts anyway. */
  lemma {:induction false} EvictionSubsumed(sols: Solutions, st: Store, hole: string, lang: string, code: string, example: string)
    ensures var merged := Merged(sols, st, hole, lang, code, true);
      CleanedUp(Evicted(sols, st, hole, lang, code, true), merged, hole, lang, true, example) ==
      CleanedUp(st, merged, hole, lang, true, example)
  {
    var merged := Merged(sols, st, hole, lang, code, true);
    var ev := Evicted(sols, st, hole, lang, code, true);
    var k0 := AutoSaveKey(hole, lang, Bytes);
    var k1 := AutoSaveKey(hole, lang, Chars);
    MetricKeysDistinct(hole, lang);
    assert PassLoop(sols, st, hole, lang, code, true, 0) == (sols, st);
    var p1 := PassLoop(sols, st, hole, lang, code, true, 1);
    assert p1 == PassStep(sols, st, hole, lang, code, true, Bytes);
    var p2 := PassStep(p1.0, p1.1, hole, lang, code, true, Chars);
    assert p2 == PassLoop(sols, st, hole, lang, code, true, 2);
    MergePerMetric(sols, st, hole, lang, code, true, Bytes);
    MergePerMetric(sols, st, hole, lang, code, true, Chars);
    assert SolutionCode(p1.0, lang, Chars) == SolutionCode(sols, lang, Chars);
    // The first loop either leaves a draft alone or removes one equal to
    // the code that has just become that metric's solution.
    assert GetItem(ev, k0) == GetItem(st, k0) || (GetItem(ev, k0) == None && GetItem(st, k0) == Some(SolutionCode(merged, lang, Bytes)));
    assert GetItem(ev, k1) == GetItem(st, k1) || (GetItem(ev, k1) == None && GetItem(st, k1) == Some(SolutionCode(merged, lang, Chars)));
    CleanedUpRule(ev, merged, hole, lang, true, example);
    CleanedUpRule(st, merged, hole, lang, true, example);
    var a := CleanedUp(ev, merged, hole, lang, true, example);
    var b := CleanedUp(st, merged, hole, lang, true, example);
    forall k
      ensures GetItem(a, k) == GetItem(b, k)
    {
      if k == k0 {
        assert GetItem(a, k0) == CacheRule(GetItem(ev, k0), merged, lang, true, example, Bytes);
      } else if k == k1 {
        assert GetItem(a, k1) == CacheRule(GetItem(ev, k1), merged, lang, true, example, Chars);
      } else {
        assert GetItem(ev, k) == GetItem(st, k);
      }
    }
    SameReads(a, b);
  }

  /** Metric auto-switch after a passing submission. */
  function AutoSwitch(active: Metric, sols: Solutions, lang: string, code: string, pass: bool): (r: Metric)
    ensures r == active || r == Other(active)
    ensures r != active <==> pass && SolutionCode(sols, lang, active) != code && SolutionCode(sols, lang, Other(active)) == code
  {
    if pass && SolutionCode(sols, lang, active) != code && SolutionCode(sols, lang, Other(active)) == code
    then Other(active) else active
  }

  /** Whenever the submitted code became either metric's solution, the
      active metric afterwards is one whose solution it is. */
  lemma AutoSwitchLands(active: Metric, sols: Solutions, lang: string, code: string)
    requires SolutionCode(sols, lang, active) == code || SolutionCode(sols, lang, Other(active)) == code
    ensures SolutionCode(sols, lang, AutoSwitch(active, sols, lang, code, true)) == code
  {
  }
}
