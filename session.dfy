/** The editor page's session state and the handlers that change it: the
    module-level `lang`, `solution`, `savedInDB` and `latestSubmissionID`,
    the `solutions` dictionaries, `localStorage` and the editor buffer. */
module Sessions {
  import opened Wrappers
  import opened Metrics
  import opened LocalStorage
  import opened Reconcile

  /** A request in flight: its number, and the code and language it sent. */
  datatype Submission = Submission(id: nat, code: string, lang: string)

  /** The answer to `POST /solution`: the HTTP status and, for status 200,
      the verdict and whether the golfer is logged in. */
  datatype Reply = Reply(status: int, pass: bool, loggedIn: bool)

  class Session {
    const hole: string
    const experimental: bool
    const langs: map<string, LangInfo>

    var lang: string
    var solution: Metric
    var savedInDB: bool
    var latestSubmissionID: nat
    var solutions: Solutions
    var storage: Store
    var editor: string

    // What the page currently shows.
    var pickerShown: bool
    var deleteHidden: bool
    var restoreShown: bool

    /** A language has been selected from the registry. */
    ghost predicate Ready()
      reads this
    {
      Fallback in langs && lang in langs
    }

    /** ... and the restore link agrees with the editor and the server code. */
    ghost predicate Valid()
      reads this
    {
      Ready() && restoreShown == RestoreLinkVisible(Server(lang, solution), editor)
    }

    function Key(l: string, m: Metric): string
    {
      AutoSaveKey(hole, l, m)
    }

    function Server(l: string, m: Metric): string
      reads this
    {
      SolutionCode(solutions, l, m)
    }

    function Draft(l: string, m: Metric): Option<string>
      reads this
    {
      GetItem(storage, Key(l, m))
    }

    /** Page load: read the remembered metric, then run `onhashchange` once
        (the editor is taken to exist from the start). */
    constructor (hole: string, experimental: bool, langs: map<string, LangInfo>,
                 snapshot: Solutions, stored: Store, fragment: string)
      requires Fallback in langs
      ensures Valid()
      ensures this.hole == hole && this.experimental == experimental && this.langs == langs
      ensures lang == ResolveLang(fragment, GetItem(stored, LangKey), langs)
      ensures savedInDB == !experimental && latestSubmissionID == 0 && solutions == snapshot
      ensures lang == Assembly ==> solution == Bytes
      ensures lang != Assembly ==> solution == CorrectedMetric(StoredMetric(GetItem(stored, SolutionKey)),
        SolutionCode(snapshot, lang, Bytes), SolutionCode(snapshot, lang, Chars),
        GetItem(stored, AutoSaveKey(hole, lang, Bytes)), GetItem(stored, AutoSaveKey(hole, lang, Chars)))
      ensures editor == DisplayedCode(GetItem(stored, AutoSaveKey(hole, lang, solution)),
        SolutionCode(snapshot, lang, solution), langs[lang].example)
      ensures var selected := if lang == Assembly then Bytes else StoredMetric(GetItem(stored, SolutionKey));
        pickerShown == ShowPicker(SolutionCode(snapshot, lang, Bytes), SolutionCode(snapshot, lang, Chars),
          GetItem(stored, AutoSaveKey(hole, lang, Bytes)), GetItem(stored, AutoSaveKey(hole, lang, Chars)), selected)
      ensures deleteHidden == DeleteHidden(experimental, SolutionCode(snapshot, lang, Bytes), SolutionCode(snapshot, lang, Chars))
      ensures GetItem(storage, LangKey) == Some(lang)
      ensures GetItem(storage, SolutionKey) ==
        if lang == Assembly || solution != StoredMetric(GetItem(stored, SolutionKey)) then Some(Name(Bytes)) else GetItem(stored, SolutionKey)
      ensures forall k :: k != LangKey && k != SolutionKey && k != AutoSaveKey(hole, lang, solution) ==> GetItem(storage, k) == GetItem(stored, k)
      ensures var key := AutoSaveKey(hole, lang, solution);
        GetItem(storage, key) ==
          GetItem(AutoSaved(stored, key, editor, SolutionCode(snapshot, lang, solution), !experimental, langs[lang].example), key)
    {
      this.hole := hole;
      this.experimental := experimental;
      this.langs := langs;
      lang := "";
      solution := StoredMetric(GetItem(stored, SolutionKey));
      savedInDB := !experimental;
      latestSubmissionID := 0;
      solutions := snapshot;
      storage := stored;
      editor := "";
      pickerShown := false;
      deleteHidden := false;
      restoreShown := false;
      new;
      OnHashChange(fragment);
    }

    /** `setSolution`: select a metric and remember its name. */
    method SetSolution(m: Metric)
      modifies this`solution, this`storage
      ensures solution == m
      ensures storage == SetItem(old(storage), SolutionKey, Name(m))
    {
      solution := m;
      storage := SetItem(storage, SolutionKey, Name(m));
    }

    /** The editor's `dispatch`, run for every transaction: a user edit, and
        the `editor.dispatch()` with which `setState` loads new code. The
        buffer is replaced by `code`, the autosave rule runs, and the restore
        link is updated. */
    method Dispatch(code: string)
      requires Ready()
      modifies this`editor, this`storage, this`restoreShown
      ensures Valid()
      ensures editor == code
      ensures storage == AutoSaved(old(storage), Key(lang, solution), code, Server(lang, solution), savedInDB, langs[lang].example)
    {
      editor := code;
      var serverCode := Server(lang, solution);
      var key := Key(lang, solution);
      if code != "" && (code != serverCode || !savedInDB) && code != langs[lang].example {
        storage := SetItem(storage, key, code);
      } else {
        storage := RemoveItem(storage, key);
      }
      UpdateRestoreLinkVisibility();
    }

    /** `updateRestoreLinkVisibility`. */
    method UpdateRestoreLinkVisibility()
      modifies this`restoreShown
      ensures restoreShown == RestoreLinkVisible(Server(lang, solution), editor)
    {
      var serverCode := Server(lang, solution);
      restoreShown := !(serverCode == "" || editor == serverCode);
    }

    /** The state-dependent part of `refreshScores`: whether the solution
        picker and the delete button are shown. */
    method RefreshScores()
      modifies this`pickerShown, this`deleteHidden
      ensures pickerShown == ShowPicker(Server(lang, Bytes), Server(lang, Chars), Draft(lang, Bytes), Draft(lang, Chars), solution)
      ensures deleteHidden == DeleteHidden(experimental, Server(lang, Bytes), Server(lang, Chars))
    {
      var dbBytes := Server(lang, Bytes);
      var dbChars := Server(lang, Chars);
      var lsBytes := Draft(lang, Bytes);
      var lsChars := Draft(lang, Chars);
      pickerShown :=
        || (dbBytes != "" && dbChars != "" && dbBytes != dbChars)
        || (Truthy(lsBytes) && Truthy(lsChars) && lsBytes.value != lsChars.value)
        || (dbBytes != "" && Truthy(lsChars) && dbBytes != lsChars.value && solution == Bytes)
        || (Truthy(lsBytes) && dbChars != "" && lsBytes.value != dbChars && solution == Chars);
      deleteHidden := experimental || (dbBytes == "" && dbChars == "");
    }

    /** `setCodeForLangAndSolution`: correct the metric, then load the code
        the display rule picks. */
    method SetCodeForLangAndSolution()
      requires Ready()
      modifies this`solution, this`storage, this`editor, this`restoreShown
      ensures Valid()
      ensures solution == CorrectedMetric(old(solution), Server(lang, Bytes), Server(lang, Chars),
        GetItem(old(storage), Key(lang, Bytes)), GetItem(old(storage), Key(lang, Chars)))
      ensures editor == DisplayedCode(GetItem(old(storage), Key(lang, solution)), Server(lang, solution), langs[lang].example)
      ensures var written := if solution != old(solution) then SetItem(old(storage), SolutionKey, Name(solution)) else old(storage);
        storage == AutoSaved(written, Key(lang, solution), editor, Server(lang, solution), savedInDB, langs[lang].example)
    {
      AutoSaveKeyNotGlobal(hole, lang, Bytes);
      AutoSaveKeyNotGlobal(hole, lang, Chars);
      if solution == Chars && Server(lang, Bytes) == Server(lang, Chars) {
        var autoSave0 := Draft(lang, Bytes);
        var autoSave1 := Draft(lang, Chars);
        if Truthy(autoSave0) && !Truthy(autoSave1) {
          SetSolution(Bytes);
        }
      }
      var code := DisplayedCode(Draft(lang, solution), Server(lang, solution), langs[lang].example);
      Dispatch(code);
    }

    /** A click on a picker option: `setSolution(i)`, then
        `setCodeForLangAndSolution()`. */
    method PickSolution(m: Metric)
      requires Ready()
      modifies this`solution, this`storage, this`editor, this`restoreShown
      ensures Valid()
      ensures solution == CorrectedMetric(m, Server(lang, Bytes), Server(lang, Chars),
        GetItem(old(storage), Key(lang, Bytes)), GetItem(old(storage), Key(lang, Chars)))
      ensures editor == DisplayedCode(GetItem(old(storage), Key(lang, solution)), Server(lang, solution), langs[lang].example)
      ensures storage == AutoSaved(SetItem(old(storage), SolutionKey, Name(solution)), Key(lang, solution), editor,
        Server(lang, solution), savedInDB, langs[lang].example)
    {
      AutoSaveKeyNotGlobal(hole, lang, Bytes);
      AutoSaveKeyNotGlobal(hole, lang, Chars);
      SetSolution(m);
      SetCodeForLangAndSolution();
    }

    /** The restore link's click handler: `setState(getSolutionCode(lang, solution))`. */
    method Restore()
      requires Ready()
      modifies this`editor, this`storage, this`restoreShown
      ensures Valid() && !restoreShown
      ensures editor == Server(lang, solution)
      ensures storage == AutoSaved(old(storage), Key(lang, solution), editor, editor, savedInDB, langs[lang].example)
      ensures savedInDB ==> Draft(lang, solution) == None
    {
      Dispatch(Server(lang, solution));
    }

    /** The first part of `onhashchange`: choose the language, force Bytes
        for assembly, remember the language and refresh the picker. */
    method SelectLanguage(fragment: string)
      requires Fallback in langs
      modifies this`lang, this`solution, this`storage, this`pickerShown, this`deleteHidden
      ensures Ready()
      ensures lang == ResolveLang(fragment, GetItem(old(storage), LangKey), langs)
      ensures solution == if lang == Assembly then Bytes else old(solution)
      ensures storage == SetItem(if lang == Assembly then SetItem(old(storage), SolutionKey, Name(Bytes)) else old(storage), LangKey, lang)
      ensures pickerShown == ShowPicker(Server(lang, Bytes), Server(lang, Chars), Draft(lang, Bytes), Draft(lang, Chars), solution)
      ensures deleteHidden == DeleteHidden(experimental, Server(lang, Bytes), Server(lang, Chars))
    {
      var hashLang := GetItem(storage, LangKey);
      lang := ResolveLang(fragment, hashLang, langs);
      if lang == Assembly {
        SetSolution(Bytes);
      }
      storage := SetItem(storage, LangKey, lang);
      RefreshScores();
    }

    /** `onhashchange`: select the language named by the URL fragment (or the
        remembered one), then load its code. */
    method OnHashChange(fragment: string)
      requires Fallback in langs
      modifies this
      ensures Valid()
      ensures lang == ResolveLang(fragment, GetItem(old(storage), LangKey), langs)
      ensures lang == Assembly ==> solution == Bytes
      ensures var selected := if lang == Assembly then Bytes else old(solution);
        && pickerShown == ShowPicker(Server(lang, Bytes), Server(lang, Chars),
             GetItem(old(storage), Key(lang, Bytes)), GetItem(old(storage), Key(lang, Chars)), selected)
        && solution == CorrectedMetric(selected, Server(lang, Bytes), Server(lang, Chars),
             GetItem(old(storage), Key(lang, Bytes)), GetItem(old(storage), Key(lang, Chars)))
      ensures deleteHidden == DeleteHidden(experimental, Server(lang, Bytes), Server(lang, Chars))
      ensures editor == DisplayedCode(GetItem(old(storage), Key(lang, solution)), Server(lang, solution), langs[lang].example)
      ensures GetItem(storage, LangKey) == Some(lang)
      ensures GetItem(storage, SolutionKey) ==
        if lang == Assembly || solution != old(solution) then Some(Name(Bytes)) else GetItem(old(storage), SolutionKey)
      ensures forall k :: k != LangKey && k != SolutionKey && k != Key(lang, solution) ==> GetItem(storage, k) == GetItem(old(storage), k)
      ensures GetItem(storage, Key(lang, solution)) ==
        GetItem(AutoSaved(old(storage), Key(lang, solution), editor, Server(lang, solution), savedInDB, langs[lang].example), Key(lang, solution))
      ensures solutions == old(solutions) && savedInDB == old(savedInDB) && latestSubmissionID == old(latestSubmissionID)
    {
      ghost var st0 := storage;
      SelectLanguage(fragment);
      ghost var st1 := storage;
      ghost var selected := solution;
      AutoSaveKeyNotGlobal(hole, lang, Bytes);
      AutoSaveKeyNotGlobal(hole, lang, Chars);
      assert GetItem(st1, Key(lang, Bytes)) == GetItem(st0, Key(lang, Bytes));
      assert GetItem(st1, Key(lang, Chars)) == GetItem(st0, Key(lang, Chars));
      SetCodeForLangAndSolution();
      assert GetItem(st1, Key(lang, solution)) == GetItem(st0, Key(lang, solution));
    }

    /** The first half of `submit`: number the request and capture the code
        and language it carries. */
    method BeginSubmit() returns (sub: Submission)
      requires Valid()
      modifies this`latestSubmissionID
      ensures Valid()
      ensures latestSubmissionID == old(latestSubmissionID) + 1
      ensures sub == Submission(latestSubmissionID, editor, lang)
    {
      latestSubmissionID := latestSubmissionID + 1;
      sub := Submission(latestSubmissionID, editor, lang);
    }

    /** The first loop of `submit` for a passing reply: for each metric, the
        submitted code replaces a missing or no better solution, and a draft
        equal to it is dropped when saved in the database. */
    method MergePass(code: string, codeLang: string)
      modifies this`solutions, this`storage
      ensures (solutions, storage) == PassLoop(old(solutions), old(storage), hole, codeLang, code, savedInDB, 2)
    {
      for i := 0 to 2
        invariant (solutions, storage) == PassLoop(old(solutions), old(storage), hole, codeLang, code, savedInDB, i)
      {
        var m := FromIndex(i);
        var solutionCode := Server(codeLang, m);
        if solutionCode == "" || Score(m, code) <= Score(m, solutionCode) {
          solutions := solutions.With(m, codeLang, code);
          var key := Key(codeLang, m);
          if savedInDB && GetItem(storage, key) == Some(code) {
            storage := RemoveItem(storage, key);
          }
        }
      }
    }

    /** The second loop of `submit`: per metric, either drop a draft equal to
        either solution (saved in the database) or autosave the solution. */
    method CleanUpDrafts(codeLang: string)
      requires codeLang in langs
      modifies this`storage
      ensures storage == CleanedUp(old(storage), solutions, hole, codeLang, savedInDB, langs[codeLang].example)
    {
      var example := langs[codeLang].example;
      for i := 0 to 2
        invariant storage == CacheLoop(old(storage), solutions, hole, codeLang, savedInDB, example, i)
      {
        var m := FromIndex(i);
        var key := Key(codeLang, m);
        if savedInDB {
          var autoSaveCode := GetItem(storage, key);
          ghost var before := storage;
          for j := 0 to 2
            invariant storage == if (j > 0 && autoSaveCode == Some(Server(codeLang, Bytes))) || (j > 1 && autoSaveCode == Some(Server(codeLang, Chars)))
                                 then RemoveItem(before, key) else before
          {
            if Some(Server(codeLang, FromIndex(j))) == autoSaveCode {
              storage := RemoveItem(storage, key);
            }
          }
        } else if Server(codeLang, m) != "" {
          if (m == Bytes || Server(codeLang, Bytes) != Server(codeLang, m)) && Server(codeLang, m) != example {
            storage := SetItem(storage, key, Server(codeLang, m));
          } else {
            storage := RemoveItem(storage, key);
          }
        }
      }
    }

    /** The part of `submit` that handles the reply to the latest request:
        merge a pass into the solutions, clean up or rewrite the drafts,
        switch the metric if only the other one now holds the code, and
        refresh the page. */
    method ApplyCurrentReply(code: string, codeLang: string, pass: bool)
      requires Valid() && codeLang in langs
      modifies this`solutions, this`storage, this`solution, this`pickerShown, this`deleteHidden, this`restoreShown
      ensures Valid()
      ensures solutions == (if pass then Merged(old(solutions), old(storage), hole, codeLang, code, savedInDB) else old(solutions))
      ensures solution == AutoSwitch(old(solution), solutions, codeLang, code, pass)
      ensures var cleaned := CleanedUp(if pass then Evicted(old(solutions), old(storage), hole, codeLang, code, savedInDB) else old(storage),
                                       solutions, hole, codeLang, savedInDB, langs[codeLang].example);
        storage == if solution != old(solution) then SetItem(cleaned, SolutionKey, Name(solution)) else cleaned
      ensures pickerShown == ShowPicker(Server(lang, Bytes), Server(lang, Chars), Draft(lang, Bytes), Draft(lang, Chars), solution)
      ensures deleteHidden == DeleteHidden(experimental, Server(lang, Bytes), Server(lang, Chars))
    {
      if pass {
        MergePass(code, codeLang);
      }
      CleanUpDrafts(codeLang);

      if pass && Server(codeLang, solution) != code && Server(codeLang, Other(solution)) == code {
        SetSolution(Other(solution));
      }
      UpdateRestoreLinkVisibility();
      RefreshScores();
    }

    /** The second half of `submit`, run when the reply to `sub` arrives. A
        status other than 200 raises an alert and changes nothing. Otherwise
        `savedInDB` follows the reply; a superseded reply stops there; the
        current one merges a pass into the solutions, cleans up or rewrites
        the drafts, may switch the metric, and refreshes the page. */
    method OnResponse(sub: Submission, reply: Reply) returns (alert: Option<int>)
      requires Valid() && sub.lang in langs
      modifies this
      ensures Valid()
      ensures lang == old(lang) && editor == old(editor) && latestSubmissionID == old(latestSubmissionID)
      ensures reply.status != 200 ==>
        && alert == Some(reply.status)
        && savedInDB == old(savedInDB) && solutions == old(solutions) && storage == old(storage) && solution == old(solution)
        && pickerShown == old(pickerShown) && deleteHidden == old(deleteHidden) && restoreShown == old(restoreShown)
      ensures reply.status == 200 ==> alert == None && savedInDB == (reply.loggedIn && !experimental)
      ensures reply.status == 200 && sub.id != old(latestSubmissionID) ==>
        && solutions == old(solutions) && storage == old(storage) && solution == old(solution)
        && pickerShown == old(pickerShown) && deleteHidden == old(deleteHidden) && restoreShown == old(restoreShown)
      ensures reply.status == 200 && sub.id == old(latestSubmissionID) ==>
        && solutions == (if reply.pass then Merged(old(solutions), old(storage), hole, sub.lang, sub.code, savedInDB) else old(solutions))
        && solution == AutoSwitch(old(solution), solutions, sub.lang, sub.code, reply.pass)
        && (var cleaned := CleanedUp(if reply.pass then Evicted(old(solutions), old(storage), hole, sub.lang, sub.code, savedInDB) else old(storage),
                                     solutions, hole, sub.lang, savedInDB, langs[sub.lang].example);
            storage == if solution != old(solution) then SetItem(cleaned, SolutionKey, Name(solution)) else cleaned)
        && pickerShown == ShowPicker(Server(lang, Bytes), Server(lang, Chars), Draft(lang, Bytes), Draft(lang, Chars), solution)
        && deleteHidden == DeleteHidden(experimental, Server(lang, Bytes), Server(lang, Chars))
    {
      if reply.status != 200 {
        alert := Some(reply.status);
        return;
      }
      alert := None;
      savedInDB := reply.loggedIn && !experimental;
      if sub.id != latestSubmissionID {
        return;
      }

      ApplyCurrentReply(sub.code, sub.lang, reply.pass);
    }
  }

  /** Two submissions in a row: the reply to the first, arriving after the
      second was sent, leaves the solutions, the drafts and the metric alone. */
  method SupersededReplyIsDiscarded(s: Session, reply: Reply)
    requires s.Valid()
    modifies s
    ensures s.Valid()
    ensures s.solutions == old(s.solutions) && s.storage == old(s.storage) && s.solution == old(s.solution)
    ensures s.latestSubmissionID == old(s.latestSubmissionID) + 2
  {
    var first := s.BeginSubmit();
    var second := s.BeginSubmit();
    assert first.id != s.latestSubmissionID;
    var alert := s.OnResponse(first, reply);
  }
}
