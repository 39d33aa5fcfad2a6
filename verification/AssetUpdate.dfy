/** Refreshing geo data under a running core. A core reads the data once, at its
  * start, so data that changes under it must show as a pending restart; a `.dat`
  * always has the `.srs` converted from it. Every method but `CoreExits` runs under
  * the lifecycle lock. File operations succeed, and a conversion that fails leaves the
  * `.srs` alone. */
module AssetUpdate {
  import opened Wrappers
  import Text

  type Name = string
  type Bytes = string

  /** The geo data of a directory, or what a core loaded of it. */
  datatype Geo = Geo(dat: map<Name, Bytes>, srs: map<Name, Bytes>)

  /** How the parts of a start come out: the stop of the old data path and, when that
    * fails, whether the core is gone anyway; the build; the bring-up; and whether an
    * edit saved meanwhile is not in the build. */
  datatype StartOutcome = StartOutcome(stops: bool, goneAnyway: bool, builds: bool, comesUp: bool, outdated: bool)

  /** What a client asks for, and what the service meets on its own: a core that exits by
    * itself, and the watchdog's teardown of a data path that is dead. */
  datatype Command =
    | Start(start: StartOutcome)
    | Stop(stops: bool, goneAnyway: bool)
    | ReloadAppFilter(answers: bool, restart: StartOutcome)
    | DownloadAsset(name: Name, body: Bytes, converts: bool, answers: bool)
    | NoteStateSaved(pending: bool)
    | CoreExits
    | ReapDeadDataPath(stops: bool, goneAnyway: bool)

  /** The service is asked whether a core runs, and answers. */
  predicate AlwaysAnswers(c: Command) {
    c.DownloadAsset? ==> c.answers
  }

  /** A due asset: the bytes fetched for it, if any, and what got in before its turn under
    * the lock. */
  datatype Due = Due(name: Name, body: Option<Bytes>, meanwhile: seq<Command>, converts: bool, answers: bool)

  datatype Event = Event(remarks: seq<Name>, restartPending: bool)

  predicate Contains(s: string, part: string) {
    part <= s || (s != "" && Contains(s[1..], part))
  }

  predicate IsSafe(filename: Name) {
    var name := Text.Trim(filename);
    name != "" && !Contains(name, "/") && !Contains(name, "..") && !Contains(name, "\"") && !Contains(name, "\\")
  }

  predicate OccursAt(s: string, part: string, i: int) {
    0 <= i <= |s| - |part| && s[i..i + |part|] == part
  }

  lemma {:induction false} ContainsExactly(s: string, part: string)
    ensures Contains(s, part) <==> exists i :: OccursAt(s, part, i)
  {
    assert part <= s <==> OccursAt(s, part, 0);
    if s != "" {
      ContainsExactly(s[1..], part);
      forall i ensures OccursAt(s[1..], part, i) <==> i >= 0 && OccursAt(s, part, i + 1) {
        assert 0 <= i <= |s| - 1 - |part| ==> s[1..][i..i + |part|] == s[i + 1..i + 1 + |part|];
      }
      if i :| OccursAt(s, part, i) {
        assert i > 0 ==> OccursAt(s[1..], part, i - 1);
      }
      if i :| OccursAt(s[1..], part, i) {
        assert OccursAt(s, part, i + 1);
      }
    }
  }

  lemma ContainsChar(s: string, c: char)
    ensures Contains(s, [c]) <==> c in s
  {
    ContainsExactly(s, [c]);
    if i :| 0 <= i < |s| && s[i] == c {
      assert OccursAt(s, [c], i);
    }
    if i :| OccursAt(s, [c], i) {
      assert s[i] == s[i..i + 1][0];
    }
  }

  predicate TwoDotsAt(s: string, i: int) {
    0 <= i < |s| - 1 && s[i] == '.' && s[i + 1] == '.'
  }

  /** A safe name is not blank, and once trimmed has no slash, backslash or quote and no two
    * dots in a row. */
  lemma SafeExactly(filename: Name)
    ensures var name := Text.Trim(filename);
            IsSafe(filename)
            <==> !Text.IsBlank(filename) && '/' !in name && '\\' !in name && '\"' !in name
                 && forall i :: !TwoDotsAt(name, i)
  {
    var name := Text.Trim(filename);
    Text.BlankTrims(filename);
    ContainsChar(name, '/');
    ContainsChar(name, '\\');
    ContainsChar(name, '\"');
    ContainsExactly(name, "..");
    forall i ensures OccursAt(name, "..", i) <==> TwoDotsAt(name, i) {
      assert 0 <= i < |name| - 1 ==> name[i..i + 2] == [name[i], name[i + 1]];
    }
  }

  predicate Lands(d: Due) {
    d.body.Some? && d.converts && IsSafe(d.name)
  }

  /** The names of the assets that were fetched and converted. */
  function Refreshed(due: seq<Due>, n: nat): seq<Name>
    requires n <= |due|
  {
    if n == 0 then [] else Refreshed(due, n - 1) + if Lands(due[n - 1]) then [due[n - 1].name] else []
  }

  predicate AllAnswer(due: seq<Due>) {
    forall d <- due :: d.answers && forall c <- d.meanwhile :: AlwaysAnswers(c)
  }

  /** Nothing else comes in between. */
  predicate IsQuiet(due: seq<Due>) {
    forall d <- due :: d.meanwhile == []
  }

  // ---------- What each command leads to ----------

  datatype View = View(geo: Geo, core: Option<Geo>, baseline: bool, pendingRestart: bool, assetsStale: bool)

  /** A start whose stop fails changes nothing but a core that is gone; one that gets further
    * leaves no core, and no build, unless the new one comes up. */
  ghost predicate StartLeads(o: StartOutcome, was: View, now: View) {
    if !o.stops then now == was.(core := if o.goneAnyway then None else was.core)
    else if o.builds && o.comesUp then now == View(was.geo, Some(was.geo), true, o.outdated, false)
    else now == was.(core := None, baseline := false, pendingRestart := false)
  }

  /** New data is on disk when its name is safe and it converts; it makes a core that the
    * platform reports stale, if it changed anything. */
  ghost predicate DownloadLeads(name: Name, body: Bytes, converts: bool, answers: bool, was: View, now: View) {
    if !converts || !IsSafe(name) then now == was
    else
      && now.geo.dat == was.geo.dat[name := body]
      && now.assetsStale == (was.assetsStale || (answers && was.core.Some? && now.geo != was.geo))
      && now == was.(geo := now.geo, assetsStale := now.assetsStale)
  }

  ghost predicate Leads(c: Command, was: View, now: View) {
    match c
    case Start(start) => StartLeads(start, was, now)
    case Stop(stops, goneAnyway) =>
      now == View(was.geo, if stops || goneAnyway then None else was.core, false, false, !stops && was.assetsStale)
    case ReloadAppFilter(answers, restart) =>
      if was.baseline || (answers && was.core.Some?) then StartLeads(restart, was, now) else now == was
    case DownloadAsset(name, body, converts, answers) => DownloadLeads(name, body, converts, answers, was, now)
    case NoteStateSaved(pending) => now == if was.baseline then was.(pendingRestart := pending) else was
    case CoreExits => now == was.(core := None)
    case ReapDeadDataPath(stops, goneAnyway) =>
      now == View(was.geo, if stops || goneAnyway then None else was.core, false, false, was.assetsStale)
  }

  class Service {
    const convert: Bytes -> Bytes
    var geo: Geo
    /** What the running core loaded. */
    var core: Option<Geo>
    /** A start recorded its build. */
    var baseline: bool
    var pendingRestart: bool
    var assetsStale: bool
    /** Data changed under a core that nobody knew to be behind, the platform did not say
      * that it runs, and nothing has put that right since. */
    ghost var missed: bool

    ghost predicate InStep()
      reads this
    {
      geo.srs.Keys == geo.dat.Keys && forall f | f in geo.dat :: geo.srs[f] == convert(geo.dat[f])
    }

    /** A core that runs on other data than the disk's shows as a pending restart. */
    ghost predicate Told()
      reads this
    {
      core.Some? && core.value != geo ==> assetsStale
    }

    ghost predicate Valid()
      reads this
    {
      InStep() && (Told() <==> !missed)
    }

    ghost function Seen(): View
      reads this
    {
      View(geo, core, baseline, pendingRestart, assetsStale)
    }

    /** What the status reports. */
    function ShowsPendingRestart(): bool
      reads this
    {
      pendingRestart || assetsStale
    }

    constructor (convert: Bytes -> Bytes, geo: Geo)
      requires geo.srs.Keys == geo.dat.Keys && forall f | f in geo.dat :: geo.srs[f] == convert(geo.dat[f])
      ensures Valid() && !missed && core.None? && this.geo == geo && this.convert == convert
    {
      this.convert, this.geo := convert, geo;
      core, baseline, pendingRestart, assetsStale, missed := None, false, false, false, false;
    }

    // ---------- Assets ----------

    /** Replace the `.dat` and its `.srs`, or neither. */
    method ApplyAsset(name: Name, body: Bytes, converts: bool) returns (r: Result<bool, string>)
      requires InStep()
      modifies this`geo
      ensures InStep()
      ensures r.Ok? <==> IsSafe(name) && converts
      ensures r.Err? ==> geo == old(geo)
      ensures r.Ok? ==> geo.dat == old(geo.dat)[name := body] && (r.value <==> geo != old(geo))
    {
      if !IsSafe(name) {
        return Err("invalid filename");
      }
      var previous := if name in geo.dat then Some(geo.dat[name]) else None;
      var changed := previous != Some(body);
      ghost var was := geo;
      geo := geo.(dat := geo.dat[name := body]);
      if !converts {
        Restore(name, previous);
        assert geo.dat == was.dat;
        return Err("conversion failed");
      }
      geo := geo.(srs := geo.srs[name := convert(body)]);
      if !changed {
        assert geo.dat == was.dat && geo.srs == was.srs;
      }
      return Ok(changed);
    }

    method Restore(name: Name, previous: Option<Bytes>)
      modifies this`geo
      ensures geo.srs == old(geo.srs)
      ensures geo.dat == if previous.Some? then old(geo.dat)[name := previous.value] else old(geo.dat) - {name}
    {
      geo := geo.(dat := match previous case Some(bytes) => geo.dat[name := bytes] case None => geo.dat - {name});
    }

    /** Whether a core runs, as far as the platform answers. */
    predicate CoreRunning(answers: bool)
      reads this
    {
      answers && core.Some?
    }

    /** Apply fetched bytes and decide whether the running core is now behind. The
      * decision goes wrong exactly when changed data lands under a core that nobody
      * yet knows to be behind while the platform does not say that it runs; a later
      * change puts it right when the platform answers or the core's own data is back. */
    method Refresh(name: Name, body: Bytes, converts: bool, answers: bool)
      returns (r: Result<bool, string>, pending: bool)
      requires Valid()
      modifies this`geo, this`assetsStale, this`missed
      ensures Valid() && (assetsStale <==> old(assetsStale) || pending)
      ensures r.Ok? <==> IsSafe(name) && converts
      ensures r.Err? ==> geo == old(geo) && !pending
      ensures r.Ok? ==> geo.dat == old(geo.dat)[name := body] && (pending <==> geo != old(geo) && CoreRunning(answers))
      ensures !old(missed) ==> (missed <==> geo != old(geo) && core.Some? && !answers && !old(assetsStale))
      ensures old(missed) ==> (missed <==> geo == old(geo) || !(answers || core == Some(geo)))
    {
      pending := false;
      r := ApplyAsset(name, body, converts);
      if r.Ok? && r.value {
        if CoreRunning(answers) {
          assetsStale := true;
          pending := true;
          missed := false;
        } else if core.Some? && !assetsStale {
          missed := core != Some(geo);
        }
      }
    }

    // ---------- Lifecycle ----------

    method NoteDataPathStopped()
      modifies this`baseline, this`pendingRestart
      ensures !baseline && !pendingRestart
    {
      baseline, pendingRestart := false, false;
    }

    /** Only a recorded build can be out of date. */
    method SettlePendingRestart(outdated: bool)
      modifies this`pendingRestart
      ensures pendingRestart == if baseline then outdated else old(pendingRestart)
    {
      if baseline {
        pendingRestart := outdated;
      }
    }

    method RunStart(outcome: StartOutcome) returns (ok: bool)
      requires Valid()
      modifies this`core, this`baseline, this`pendingRestart, this`assetsStale, this`missed
      ensures Valid() && (missed <==> old(missed) && core.Some? && !ok)
      ensures ok <==> outcome.stops && outcome.builds && outcome.comesUp
      ensures StartLeads(outcome, old(Seen()), Seen())
      ensures ok ==> core == Some(geo) && baseline && !assetsStale && (ShowsPendingRestart() <==> outcome.outdated)
      ensures !ok ==> assetsStale == old(assetsStale) && (core == old(core) || core.None?)
    {
      if !outcome.stops {
        core := if outcome.goneAnyway then None else core;
        missed := missed && core.Some?;
        return false;
      }
      core, missed := None, false;
      NoteDataPathStopped();
      if !outcome.builds {
        return false;
      }
      if !outcome.comesUp {
        NoteDataPathStopped();
        return false;
      }
      core := Some(geo);
      baseline, pendingRestart, assetsStale := true, false, false;
      SettlePendingRestart(outcome.outdated);
      return true;
    }

    /** Only a stop that worked takes the flag down. */
    method RunStop(stops: bool, goneAnyway: bool) returns (ok: bool)
      requires Valid()
      modifies this`core, this`baseline, this`pendingRestart, this`assetsStale, this`missed
      ensures Valid() && (missed <==> old(missed) && core.Some?)
      ensures ok == stops && !baseline && !pendingRestart
      ensures ok ==> core.None? && !ShowsPendingRestart()
      ensures !ok ==> assetsStale == old(assetsStale) && core == if goneAnyway then None else old(core)
    {
      NoteDataPathStopped();
      if !stops {
        core := if goneAnyway then None else core;
        missed := missed && core.Some?;
        return false;
      }
      core, missed := None, false;
      assetsStale := false;
      return true;
    }

    /** The core ends without a stop; what the service recorded stays until the watchdog
      * sees it. */
    method CoreExits()
      requires Valid()
      modifies this`core, this`missed
      ensures Valid() && core.None? && !missed
    {
      core, missed := None, false;
    }

    /** The watchdog's teardown leaves the flag up, unlike a stop. */
    method TearDownDeadDataPath(stops: bool, goneAnyway: bool)
      requires Valid()
      modifies this`core, this`baseline, this`pendingRestart, this`missed
      ensures Valid() && (missed <==> old(missed) && core.Some?)
      ensures !baseline && !pendingRestart
      ensures core == if stops || goneAnyway then None else old(core)
    {
      core := if stops || goneAnyway then None else core;
      missed := missed && core.Some?;
      NoteDataPathStopped();
    }

    /** Every command does what it is for, and keeps that a core behind the disk shows as a
      * pending restart unless a change was missed; none is missed while the platform
      * answers. */
    method Dispatch(c: Command)
      requires Valid()
      modifies this
      ensures Valid() && (!old(missed) && AlwaysAnswers(c) ==> !missed)
      ensures Leads(c, old(Seen()), Seen())
    {
      match c {
        case Start(start) =>
          var _ := RunStart(start);
        case Stop(stops, goneAnyway) =>
          var _ := RunStop(stops, goneAnyway);
        case ReloadAppFilter(answers, restart) =>
          if baseline || CoreRunning(answers) {
            var _ := RunStart(restart);
          }
        case DownloadAsset(name, body, converts, answers) =>
          var _, _ := Refresh(name, body, converts, answers);
        case NoteStateSaved(pending) =>
          SettlePendingRestart(pending);
        case CoreExits =>
          CoreExits();
        case ReapDeadDataPath(stops, goneAnyway) =>
          TearDownDeadDataPath(stops, goneAnyway);
      }
    }

    /** One pass over the due assets, with any commands in between. However it goes, a
      * core behind the disk shows as a pending restart unless a change was missed. Left
      * alone and answered, the pass reports a pending restart whenever it leaves other
      * data under a core, and never without a core. */
    method Tick(due: seq<Due>) returns (event: Option<Event>)
      requires Valid()
      modifies this
      ensures Valid() && (!old(missed) && AllAnswer(due) ==> !missed)
      ensures if Refreshed(due, |due|) == [] then event.None?
              else event.Some? && event.value.remarks == Refreshed(due, |due|)
      ensures IsQuiet(due) ==>
                var pending := event.Some? && event.value.restartPending;
                && core == old(core) && pendingRestart == old(pendingRestart)
                && (if pending then core.Some? && assetsStale else assetsStale == old(assetsStale))
                && (AllAnswer(due) && core.Some? && geo != old(geo) ==> pending)
    {
      var restartPending := false;
      var refreshed: seq<Name> := [];
      for i := 0 to |due|
        invariant Valid() && (!old(missed) && AllAnswer(due) ==> !missed)
        invariant refreshed == Refreshed(due, i) && (restartPending ==> refreshed != [])
        invariant IsQuiet(due) ==>
                    && core == old(core) && pendingRestart == old(pendingRestart)
                    && (if restartPending then core.Some? && assetsStale else assetsStale == old(assetsStale))
                    && (AllAnswer(due) && core.Some? && geo != old(geo) ==> restartPending)
      {
        var d := due[i];
        Meanwhile(d.meanwhile);
        if d.body.Some? {
          var r, pending := Refresh(d.name, d.body.value, d.converts, d.answers);
          if r.Ok? {
            refreshed := refreshed + [d.name];
            restartPending := restartPending || pending;
          }
        }
      }
      event := if refreshed == [] then None else Some(Event(refreshed, restartPending));
    }

    method Meanwhile(commands: seq<Command>)
      requires Valid()
      modifies this
      ensures Valid() && (!old(missed) && (forall c <- commands :: AlwaysAnswers(c)) ==> !missed)
      ensures commands == [] ==>
                && geo == old(geo) && core == old(core)
                && pendingRestart == old(pendingRestart) && assetsStale == old(assetsStale)
    {
      for i := 0 to |commands|
        invariant Valid() && (!old(missed) && (forall c <- commands :: AlwaysAnswers(c)) ==> !missed)
        invariant i == 0 ==> geo == old(geo) && core == old(core)
                             && pendingRestart == old(pendingRestart) && assetsStale == old(assetsStale)
      {
        Dispatch(commands[i]);
      }
    }
  }

  /** The platform fails to say that a core runs, and a changed asset goes unnoticed. */
  method MissedChange() returns (service: Service)
    ensures service.Valid() && service.missed
    ensures service.core.Some? && service.core.value != service.geo && !service.ShowsPendingRestart()
  {
    service := new Service(bytes => bytes, Geo(map[], map[]));
    var _ := service.RunStart(StartOutcome(true, false, true, true, false));
    assert |"a"| == 1 && Text.Trim("a") == "a" && IsSafe("a");
    var r, _ := service.Refresh("a", "new", true, false);
    assert "a" in service.geo.dat;
  }
}
