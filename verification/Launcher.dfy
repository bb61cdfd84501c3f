/**
 The launcher's pause and resume machine: LauncherState (apps/rocket/Launcher.cpp:120-384) over App and AppManager
 (apps/rocket/App.cpp:133-211).

 A path is represented by its rank in the order of strings, so that the empty string is 0.
 */
module Launcher {
  import opened Options
  import Choice

  type Path = nat
  const EMPTY: Path := 0

  /** Identity of a run info object; a new launch makes a new object. */
  type InfoId = nat

  /** An app holds a weak reference to the run info of its last launch, which expires when the process is gone. */
  datatype App = App(path: Path, runInfo: Option<InfoId>, shouldRemove: bool)

  /** `runInfos` maps every live run info to its paused flag. */
  datatype State = State(apps: seq<App>, runInfos: map<InfoId, bool>, visible: bool, current: Path, previous: Path)

  predicate IsRunning(runInfos: map<InfoId, bool>, a: App) { a.runInfo.Some? && a.runInfo.value in runInfos }

  predicate IsPaused(runInfos: map<InfoId, bool>, a: App) { IsRunning(runInfos, a) && runInfos[a.runInfo.value] }

  // ----- Invariant

  /** Every app has its own, nonempty path, and live run infos are not shared. */
  ghost predicate AppsOk(s: State) {
    && (forall i | 0 <= i < |s.apps| :: s.apps[i].path != EMPTY)
    && (forall i, j | 0 <= i < j < |s.apps| :: s.apps[i].path != s.apps[j].path)
    && (forall i, j | 0 <= i < j < |s.apps| && IsRunning(s.runInfos, s.apps[i]) :: s.apps[i].runInfo != s.apps[j].runInfo)
  }

  /** A nonempty path names a running app. */
  ghost predicate NamesRunning(s: State, path: Path) {
    path != EMPTY ==> exists i | 0 <= i < |s.apps| :: s.apps[i].path == path && IsRunning(s.runInfos, s.apps[i])
  }

  /** The only app that may be running and not paused is the current one, and only while the launcher is hidden. */
  ghost predicate OthersPaused(s: State) {
    forall i | 0 <= i < |s.apps| && IsRunning(s.runInfos, s.apps[i]) ::
      s.visible || s.apps[i].path != s.current ==> IsPaused(s.runInfos, s.apps[i])
  }

  /** While the launcher is hidden the current app, if any, is not paused. */
  ghost predicate CurrentRuns(s: State) {
    !s.visible ==> forall i | 0 <= i < |s.apps| :: s.apps[i].path == s.current ==> !IsPaused(s.runInfos, s.apps[i])
  }

  ghost predicate Base(s: State) {
    AppsOk(s) && NamesRunning(s, s.current) && NamesRunning(s, s.previous) && OthersPaused(s)
  }

  ghost predicate Inv(s: State) { Base(s) && CurrentRuns(s) }

  /** At most one app is running and not paused, it is the current one, and there is none while the launcher shows. */
  lemma AtMostOneActive(s: State, i: nat, j: nat)
    requires Inv(s) && i < |s.apps| && j < |s.apps|
    requires IsRunning(s.runInfos, s.apps[i]) && !IsPaused(s.runInfos, s.apps[i])
    requires IsRunning(s.runInfos, s.apps[j]) && !IsPaused(s.runInfos, s.apps[j])
    ensures i == j && s.apps[i].path == s.current && !s.visible
  {
    PathsAreUnique(s, i, j);
  }

  lemma PathsAreUnique(s: State, i: nat, j: nat)
    requires AppsOk(s) && i < |s.apps| && j < |s.apps| && s.apps[i].path == s.apps[j].path
    ensures i == j
  {
  }

  // ----- Steps of a switch

  /** Every running app is paused. */
  ghost predicate AllPaused(s: State) {
    && AppsOk(s) && NamesRunning(s, s.current) && NamesRunning(s, s.previous)
    && forall i | 0 <= i < |s.apps| && IsRunning(s.runInfos, s.apps[i]) :: IsPaused(s.runInfos, s.apps[i])
  }

  lemma RunningIsPaused(s: State, i: nat)
    requires AllPaused(s) && i < |s.apps| && IsRunning(s.runInfos, s.apps[i])
    ensures IsPaused(s.runInfos, s.apps[i])
  {
  }

  /** Changing flags of live run infos changes no app's being run. */
  lemma FlagsKeepApps(s: State, t: State)
    requires AppsOk(s) && t.apps == s.apps && t.runInfos.Keys == s.runInfos.Keys
    ensures AppsOk(t)
    ensures forall path: Path :: NamesRunning(s, path) ==> NamesRunning(t, path)
  {
    forall path: Path | NamesRunning(s, path) && path != EMPTY ensures NamesRunning(t, path) {
      var i :| 0 <= i < |s.apps| && s.apps[i].path == path && IsRunning(s.runInfos, s.apps[i]);
      assert t.apps[i].path == path && IsRunning(t.runInfos, t.apps[i]);
    }
  }

  /** The run info is that of the current app. */
  ghost predicate OfCurrent(s: State, id: InfoId) {
    exists i | 0 <= i < |s.apps| :: s.apps[i].path == s.current && s.apps[i].runInfo == Some(id)
  }

  /** The flags once the current app is paused: no other flag changes. */
  ghost predicate CurrentPaused(s: State, runInfos: map<InfoId, bool>) {
    && runInfos.Keys == s.runInfos.Keys
    && forall id | id in runInfos :: runInfos[id] == (s.runInfos[id] || OfCurrent(s, id))
  }

  /** Pausing the current app, if it runs unpaused, leaves nothing unpaused. */
  lemma PausedAll(s: State, runInfos: map<InfoId, bool>)
    requires Inv(s) && CurrentPaused(s, runInfos)
    ensures AllPaused(s.(runInfos := runInfos)) && AllPaused(s.(runInfos := runInfos, visible := false))
  {
    var t := s.(runInfos := runInfos);
    FlagsKeepApps(s, t);
    FlagsKeepApps(s, t.(visible := false));
    forall i | 0 <= i < |t.apps| && IsRunning(t.runInfos, t.apps[i]) ensures IsPaused(t.runInfos, t.apps[i]) {
      if s.apps[i].path != s.current { assert IsPaused(s.runInfos, s.apps[i]); }
    }
  }

  /** Resuming one of the paused apps and making it current. */
  lemma Resumed(s: State, i: nat)
    requires AllPaused(s) && !s.visible && i < |s.apps| && IsRunning(s.runInfos, s.apps[i])
    ensures Inv(s.(runInfos := s.runInfos[s.apps[i].runInfo.value := false], previous := s.current, current := s.apps[i].path))
  {
    var t := s.(runInfos := s.runInfos[s.apps[i].runInfo.value := false], previous := s.current, current := s.apps[i].path);
    FlagsKeepApps(s, t);
    assert NamesRunning(t, t.current) by { assert IsRunning(t.runInfos, t.apps[i]); }
  }

  /** Launching a stopped app and making it current. */
  lemma Launched(s: State, i: nat, id: InfoId)
    requires AllPaused(s) && !s.visible && i < |s.apps| && !IsRunning(s.runInfos, s.apps[i])
    requires forall k | 0 <= k < |s.apps| :: s.apps[k].runInfo != Some(id)
    requires id !in s.runInfos
    ensures Inv(s.(apps := s.apps[i := s.apps[i].(runInfo := Some(id))], runInfos := s.runInfos[id := false],
                   previous := s.current, current := s.apps[i].path))
  {
    var t := s.(apps := s.apps[i := s.apps[i].(runInfo := Some(id))], runInfos := s.runInfos[id := false],
                previous := s.current, current := s.apps[i].path);
    forall k | 0 <= k < |t.apps| && k != i ensures IsRunning(t.runInfos, t.apps[k]) == IsRunning(s.runInfos, s.apps[k]) {}
    assert NamesRunning(t, t.current) by { assert IsRunning(t.runInfos, t.apps[i]); }
    if s.current != EMPTY {
      var k :| 0 <= k < |s.apps| && s.apps[k].path == s.current && IsRunning(s.runInfos, s.apps[k]);
      assert t.apps[k].path == t.previous && IsRunning(t.runInfos, t.apps[k]);
    }
  }

  /** A failed launch hides the launcher with the current app paused: the invariant survives only without such an app. */
  lemma FailedLaunch(s: State)
    requires AllPaused(s) && !s.visible
    ensures Inv(s) <==> s.current == EMPTY
  {
  }

  /** After such a failure the next show would pause an app that is already paused. */
  lemma FailedLaunchThenShow(s: State)
    requires AllPaused(s) && !s.visible && s.current != EMPTY
    ensures exists i | 0 <= i < |s.apps| :: s.apps[i].path == s.current && IsPaused(s.runInfos, s.apps[i])
  {
    var i :| 0 <= i < |s.apps| && s.apps[i].path == s.current && IsRunning(s.runInfos, s.apps[i]);
    assert IsPaused(s.runInfos, s.apps[i]);
  }

  // ----- Reading the application directories, and apps that have stopped

  /** The launcher after a rescan keeps every running app; an app that is gone from disk but runs is marked. */
  ghost predicate Rescanned(s: State, paths: set<Path>, t: State) {
    && t == s.(apps := t.apps)
    && (forall a | a in t.apps :: a.path in paths || (a.shouldRemove && IsRunning(s.runInfos, a)))
    && (forall a | a in t.apps :: a in s.apps || a == App(a.path, None, false) || (a.shouldRemove && a.(shouldRemove := false) in s.apps))
    && (forall a | a in s.apps :: a.path in paths ==> a in t.apps)
    && (forall a | a in s.apps && a.path !in paths && IsRunning(s.runInfos, a) :: a.(shouldRemove := true) in t.apps)
    && (forall path | path in paths :: exists a | a in t.apps :: a.path == path)
    && (forall i, j | 0 <= i < j < |t.apps| :: t.apps[i].path < t.apps[j].path)
  }

  /** A running app of the rescanned list was in the list before, with the same run info. */
  lemma RunningWasThere(s: State, paths: set<Path>, t: State, i: nat) returns (k: nat)
    requires Rescanned(s, paths, t) && i < |t.apps| && IsRunning(t.runInfos, t.apps[i])
    ensures k < |s.apps| && s.apps[k].path == t.apps[i].path && s.apps[k].runInfo == t.apps[i].runInfo
  {
    var a := t.apps[i];
    assert a in t.apps;
    k :| k < |s.apps| && (s.apps[k] == a || s.apps[k] == a.(shouldRemove := false));
  }

  lemma InfosStayUnshared(s: State, paths: set<Path>, t: State, i: nat, j: nat)
    requires AppsOk(s) && Rescanned(s, paths, t) && i < j < |t.apps| && IsRunning(t.runInfos, t.apps[i])
    ensures t.apps[i].runInfo != t.apps[j].runInfo
  {
    if IsRunning(t.runInfos, t.apps[j]) {
      var k := RunningWasThere(s, paths, t, i);
      var l := RunningWasThere(s, paths, t, j);
      assert s.apps[k].path < s.apps[l].path;
    }
  }

  /** Dropping apps that do not run and adding apps that never ran keeps everything that matters. */
  lemma RescanKeeps(s: State, paths: set<Path>, t: State)
    requires AppsOk(s) && Rescanned(s, paths, t) && EMPTY !in paths
    ensures AppsOk(t)
    ensures forall path: Path :: NamesRunning(s, path) ==> NamesRunning(t, path)
    ensures OthersPaused(s) ==> OthersPaused(t)
  {
    forall i, j | 0 <= i < j < |t.apps| && IsRunning(t.runInfos, t.apps[i]) ensures t.apps[i].runInfo != t.apps[j].runInfo {
      InfosStayUnshared(s, paths, t, i, j);
    }
    forall i | 0 <= i < |t.apps| ensures t.apps[i].path != EMPTY {
      PathsNonEmpty(s, paths, t, i);
    }
    forall path: Path | NamesRunning(s, path) ensures NamesRunning(t, path) {
      StillNamed(s, paths, t, path);
    }
    if OthersPaused(s) {
      forall i | 0 <= i < |t.apps| && IsRunning(t.runInfos, t.apps[i]) && (t.visible || t.apps[i].path != t.current)
        ensures IsPaused(t.runInfos, t.apps[i])
      {
        var k := RunningWasThere(s, paths, t, i);
        assert IsPaused(s.runInfos, s.apps[k]);
      }
    }
  }

  lemma PathsNonEmpty(s: State, paths: set<Path>, t: State, i: nat)
    requires AppsOk(s) && Rescanned(s, paths, t) && EMPTY !in paths && i < |t.apps|
    ensures t.apps[i].path != EMPTY
  {
    assert t.apps[i] in t.apps;
    if t.apps[i].path !in paths { var k := RunningWasThere(s, paths, t, i); }
  }

  lemma StillNamed(s: State, paths: set<Path>, t: State, path: Path)
    requires Rescanned(s, paths, t) && NamesRunning(s, path)
    ensures NamesRunning(t, path)
  {
    if path != EMPTY {
      var k :| 0 <= k < |s.apps| && s.apps[k].path == path && IsRunning(s.runInfos, s.apps[k]);
      var a := if path in paths then s.apps[k] else s.apps[k].(shouldRemove := true);
      assert s.apps[k] in s.apps;
      assert a in t.apps;
      var i :| 0 <= i < |t.apps| && t.apps[i] == a;
      assert IsRunning(t.runInfos, t.apps[i]);
    }
  }

  // ----- Apps that have stopped

  /** `path` names an app that does not run by `runInfos`. */
  ghost predicate Stops(s: State, runInfos: map<InfoId, bool>, path: Path) {
    exists i | 0 <= i < |s.apps| :: s.apps[i].path == path && !IsRunning(runInfos, s.apps[i])
  }

  /**
   The launcher after a look at the processes, before it possibly shows: exactly the paths of stopped apps are emptied,
   and exactly the marked apps that do not run are gone.
   */
  ghost predicate StoppedGone(s: State, dead: set<InfoId>, t: State) {
    var infos := s.runInfos - dead;
    && t == State(t.apps, infos, s.visible, if Stops(s, infos, s.current) then EMPTY else s.current,
                  if Stops(s, infos, s.previous) then EMPTY else s.previous)
    && forall a :: a in t.apps <==> a in s.apps && (a.shouldRemove ==> IsRunning(infos, a))
  }

  /** The app of a path is listed. */
  ghost predicate Lists(s: State, path: Path) { exists a | a in s.apps :: a.path == path }

  /**
   An app that is on disk at a rescan is still listed after its process has ended iff it is not marked: a mark set while
   it was missing is never taken back.
   */
  lemma StaysListedIff(s: State, a: App, paths: set<Path>, t: State, dead: set<InfoId>, u: State)
    requires AppsOk(s) && EMPTY !in paths && a in s.apps && a.path in paths && Rescanned(s, paths, t)
    requires StoppedGone(t, dead, u) && !IsRunning(t.runInfos - dead, a)
    ensures Lists(u, a.path) <==> !a.shouldRemove
  {
    RescanKeeps(s, paths, t);
    assert a in t.apps;
    forall b | b in t.apps && b.path == a.path ensures b == a { SamePath(t, a, b); }
    hide Rescanned;
  }

  lemma SamePath(s: State, a: App, b: App)
    requires AppsOk(s) && a in s.apps && b in s.apps && a.path == b.path
    ensures a == b
  {
    var i :| 0 <= i < |s.apps| && s.apps[i] == a;
    var j :| 0 <= j < |s.apps| && s.apps[j] == b;
    PathsAreUnique(s, i, j);
  }

  /** A running app that is missing at one rescan is marked, and being back on disk at the next does not help it. */
  lemma DroppedThoughOnDisk(s: State, a: App, without: set<Path>, t: State, paths: set<Path>, u: State, dead: set<InfoId>, v: State)
    requires AppsOk(s) && a in s.apps && IsRunning(s.runInfos, a)
    requires EMPTY !in without && a.path !in without && Rescanned(s, without, t)
    requires EMPTY !in paths && a.path in paths && Rescanned(t, paths, u)
    requires StoppedGone(u, dead, v) && !IsRunning(u.runInfos - dead, a)
    ensures !Lists(v, a.path)
  {
    RescanKeeps(s, without, t);
    var marked := a.(shouldRemove := true);
    assert marked in t.apps;
    StaysListedIff(t, marked, paths, u, dead, v);
  }

  // ----- The next app to highlight

  /** First running app at or after `from`. */
  function FirstRunning(apps: seq<App>, runInfos: map<InfoId, bool>, from: nat): (r: Option<nat>)
    requires from <= |apps|
    ensures r.Some? ==> from <= r.value < |apps| && IsRunning(runInfos, apps[r.value])
    ensures forall k | from <= k < (if r.Some? then r.value else |apps|) :: !IsRunning(runInfos, apps[k])
    decreases |apps| - from
  {
    if from == |apps| then None
    else if IsRunning(runInfos, apps[from]) then Some(from)
    else FirstRunning(apps, runInfos, from + 1)
  }

  function IndexOf(apps: seq<App>, path: Path, from: nat): (r: Option<nat>)
    requires from <= |apps|
    ensures r.Some? ==> from <= r.value < |apps| && apps[r.value].path == path
    ensures forall k | from <= k < (if r.Some? then r.value else |apps|) :: apps[k].path != path
    decreases |apps| - from
  {
    if from == |apps| then None else if apps[from].path == path then Some(from) else IndexOf(apps, path, from + 1)
  }

  /** The first running app after the highlighted one, or else the first running app at all. */
  function NextHighlight(apps: seq<App>, runInfos: map<InfoId, bool>, highlighted: Path): Option<nat> {
    var h := IndexOf(apps, highlighted, 0);
    var after := if h.Some? then FirstRunning(apps, runInfos, h.value + 1) else None;
    if after.Some? then after else FirstRunning(apps, runInfos, 0)
  }

  /** The highlight moves to a running app, past none that comes after the highlighted one; going round, past none at all. */
  lemma NextHighlightIs(apps: seq<App>, runInfos: map<InfoId, bool>, highlighted: Path, h: nat)
    requires h < |apps| && apps[h].path == highlighted && forall k | 0 <= k < h :: apps[k].path != highlighted
    ensures var next := NextHighlight(apps, runInfos, highlighted);
            match next
            case None => forall k | 0 <= k < |apps| :: !IsRunning(runInfos, apps[k])
            case Some(n) =>
              && n < |apps| && IsRunning(runInfos, apps[n])
              && if n > h then forall k | h < k < n :: !IsRunning(runInfos, apps[k])
                 else forall k | 0 <= k < n || h < k < |apps| :: !IsRunning(runInfos, apps[k])
  {
    assert IndexOf(apps, highlighted, 0) == Some(h);
  }

  /** With nothing highlighted it goes to the first running app. */
  lemma FirstHighlight(apps: seq<App>, runInfos: map<InfoId, bool>, highlighted: Path, n: nat)
    requires forall k | 0 <= k < |apps| :: apps[k].path != highlighted
    requires n < |apps| && IsRunning(runInfos, apps[n]) && forall k | 0 <= k < n :: !IsRunning(runInfos, apps[k])
    ensures NextHighlight(apps, runInfos, highlighted) == Some(n)
  {
    assert FirstRunning(apps, runInfos, 0) == Some(n);
  }

  // ----- Sorting by path

  ghost predicate SortedByPath(s: seq<App>) {
    forall i, j | 0 <= i < j < |s| :: s[i].path < s[j].path
  }

  ghost predicate DistinctPaths(s: seq<App>) {
    forall i, j | 0 <= i < j < |s| :: s[i].path != s[j].path
  }

  function Insert(s: seq<App>, a: App): (r: seq<App>)
    ensures forall x :: x in r <==> x == a || x in s
  {
    if s == [] || a.path < s[0].path then [a] + s else [s[0]] + Insert(s[1..], a)
  }

  lemma {:induction false} InsertSorts(s: seq<App>, a: App)
    requires SortedByPath(s) && forall x | x in s :: x.path != a.path
    ensures SortedByPath(Insert(s, a))
  {
    if s != [] && s[0].path < a.path {
      InsertSorts(s[1..], a);
      forall i | 0 <= i < |Insert(s[1..], a)| ensures s[0].path < Insert(s[1..], a)[i].path {
        assert Insert(s[1..], a)[i] in Insert(s[1..], a);
      }
    }
  }

  /** std::sort by path. */
  method SortByPath(s: seq<App>) returns (r: seq<App>)
    requires DistinctPaths(s)
    ensures SortedByPath(r) && forall x :: x in r <==> x in s
  {
    r := [];
    var i := 0;
    while i < |s|
      invariant i <= |s| && SortedByPath(r) && forall x :: x in r <==> x in s[..i]
    {
      forall x | x in r ensures x.path != s[i].path {
        assert x in s[..i];
      }
      InsertSorts(r, s[i]);
      r := Insert(r, s[i]);
      i := i + 1;
    }
  }

  /** No run info at or above `next` has been made. */
  ghost predicate InfosBelow(s: State, next: InfoId) {
    && (forall id | id in s.runInfos :: id < next)
    && (forall a | a in s.apps && a.runInfo.Some? :: a.runInfo.value < next)
  }

  lemma RescanMakesNoInfos(s: State, paths: set<Path>, t: State, next: InfoId)
    requires InfosBelow(s, next) && Rescanned(s, paths, t)
    ensures InfosBelow(t, next)
  {
  }

  /** What can happen to the launcher; a tap names an app of the list shown. */
  datatype Event =
    | Tap(app: nat)
    | ShowLauncher(paths: set<Path>)
    | HideLauncher
    | HighlightNext
    | ProcessesEnded(dead: set<InfoId>, paths: set<Path>)

  predicate PathsOk(e: Event) {
    match e
    case ShowLauncher(paths) => EMPTY !in paths
    case ProcessesEnded(_, paths) => EMPTY !in paths
    case _ => true
  }

  // ----- The launcher

  class LauncherState {
    var apps: seq<App>
    var runInfos: map<InfoId, bool>
    var nextInfo: InfoId
    var visible: bool
    var currentAppPath: Path
    var previousAppPath: Path

    ghost function Snapshot(): State
      reads this
    {
      State(apps, runInfos, visible, currentAppPath, previousAppPath)
    }

    /** Run infos yet to be made are referred to by no app. */
    ghost predicate Valid()
      reads this
    {
      InfosBelow(Snapshot(), nextInfo)
    }

    constructor ()
      ensures Valid() && Inv(Snapshot()) && Snapshot() == State([], map[], true, EMPTY, EMPTY)
    {
      apps, runInfos, nextInfo := [], map[], 0;
      visible, currentAppPath, previousAppPath := true, EMPTY, EMPTY;
    }

    /** std::find_if by path. */
    method Find(path: Path) returns (i: Option<nat>)
      ensures i.Some? ==> i.value < |apps| && apps[i.value].path == path
      ensures i.None? ==> forall k | 0 <= k < |apps| :: apps[k].path != path
    {
      var k := 0;
      while k < |apps|
        invariant k <= |apps| && forall j | 0 <= j < k :: apps[j].path != path
      {
        if apps[k].path == path { return Some(k); }
        k := k + 1;
      }
      return None;
    }

    method GetCurrentApp() returns (i: Option<nat>)
      ensures i.Some? ==> i.value < |apps| && apps[i.value].path == currentAppPath
      ensures i.None? ==> forall k | 0 <= k < |apps| :: apps[k].path != currentAppPath
    {
      i := Find(currentAppPath);
    }

    method GetPreviousApp() returns (i: Option<nat>)
      ensures i.Some? ==> i.value < |apps| && apps[i.value].path == previousAppPath != EMPTY
      ensures i.None? && previousAppPath != EMPTY ==> forall k | 0 <= k < |apps| :: apps[k].path != previousAppPath
    {
      if previousAppPath == EMPTY { return None; }
      i := Find(previousAppPath);
    }

    // App::pause, resume and launch, with what they assert as preconditions

    method Pause(i: nat)
      requires i < |apps| && IsRunning(runInfos, apps[i]) && !IsPaused(runInfos, apps[i])
      modifies this`runInfos
      ensures runInfos == old(runInfos)[apps[i].runInfo.value := true]
    {
      runInfos := runInfos[apps[i].runInfo.value := true];
    }

    method Resume(i: nat)
      requires i < |apps| && IsPaused(runInfos, apps[i])
      modifies this`runInfos
      ensures runInfos == old(runInfos)[apps[i].runInfo.value := false]
    {
      runInfos := runInfos[apps[i].runInfo.value := false];
    }

    method Launch(i: nat, forks: bool) returns (started: bool)
      requires i < |apps| && !IsRunning(runInfos, apps[i])
      modifies this`runInfos, this`apps, this`nextInfo
      ensures started == forks
      ensures !forks ==> runInfos == old(runInfos) && apps == old(apps) && nextInfo == old(nextInfo)
      ensures forks ==> && nextInfo == old(nextInfo) + 1
                        && runInfos == old(runInfos)[old(nextInfo) := false]
                        && apps == old(apps)[i := old(apps[i]).(runInfo := Some(old(nextInfo)))]
    {
      if !forks { return false; }
      apps := apps[i := apps[i].(runInfo := Some(nextInfo))];
      runInfos := runInfos[nextInfo := false];
      nextInfo := nextInfo + 1;
      return true;
    }

    /** switchApp: the given app comes to the front, unless it has to be launched and cannot be. */
    method SwitchApp(i: nat, forks: bool)
      requires Valid() && Inv(Snapshot()) && i < |apps|
      modifies this
      ensures Valid()
      // exactly a failed launch over a current app breaks the invariant
      ensures Inv(Snapshot()) <==> forks || old(IsRunning(runInfos, apps[i])) || old(currentAppPath) == EMPTY
      ensures forks || old(IsRunning(runInfos, apps[i])) ==>
                && |apps| == |old(apps)| && apps[i].path == old(apps)[i].path == currentAppPath
                && (forall k | 0 <= k < |apps| && k != i :: apps[k] == old(apps)[k])
                && previousAppPath == old(currentAppPath) && !visible
                && IsRunning(runInfos, apps[i]) && !IsPaused(runInfos, apps[i])
      ensures !forks && !old(IsRunning(runInfos, apps[i])) ==>
                && Snapshot() == old(Snapshot()).(visible := false, runInfos := runInfos)
                && AllPaused(Snapshot())
    {
      hide Inv, AllPaused;
      PauseForSwitch();
      ghost var paused := Snapshot();
      if IsRunning(runInfos, apps[i]) { RunningIsPaused(paused, i); }
      FailedLaunch(paused);

      if IsPaused(runInfos, apps[i]) {
        Resumed(paused, i);
        Resume(i);
      } else if !IsRunning(runInfos, apps[i]) {
        var started := Launch(i, forks);
        if !started {
          return;
        }
        Launched(paused, i, nextInfo - 1);
      }
      previousAppPath := currentAppPath;
      currentAppPath := apps[i].path;
    }

    /** Lines 266-274: hides the launcher and pauses the current app if it runs unpaused. */
    method PauseForSwitch()
      requires Valid() && Inv(Snapshot())
      modifies this`visible, this`runInfos
      ensures Valid() && AllPaused(Snapshot()) && !visible && runInfos.Keys == old(runInfos).Keys
    {
      hide Inv, AllPaused;
      ghost var before := Snapshot();
      visible := false;
      var currentApp := GetCurrentApp();
      if currentApp.Some? && IsRunning(runInfos, apps[currentApp.value]) && !IsPaused(runInfos, apps[currentApp.value]) {
        Pause(currentApp.value);
      }
      NowPaused(before, currentApp, runInfos);
    }

    lemma NowPaused(before: State, currentApp: Option<nat>, infos: map<InfoId, bool>)
      requires Inv(before)
      requires currentApp.Some? ==> currentApp.value < |before.apps| && before.apps[currentApp.value].path == before.current
      requires currentApp.None? ==> forall k | 0 <= k < |before.apps| :: before.apps[k].path != before.current
      requires infos == if currentApp.Some? && IsRunning(before.runInfos, before.apps[currentApp.value])
                        then before.runInfos[before.apps[currentApp.value].runInfo.value := true] else before.runInfos
      ensures AllPaused(before.(runInfos := infos)) && AllPaused(before.(runInfos := infos, visible := false))
      ensures CurrentPaused(before, infos)
    {
      assert infos.Keys == before.runInfos.Keys;
      if currentApp.Some? {
        forall i | 0 <= i < |before.apps| && before.apps[i].path == before.current ensures i == currentApp.value {
          PathsAreUnique(before, i, currentApp.value);
        }
      }
      PausedAll(before, infos);
    }

    /** readApps: `paths` are the apps found on disk. */
    method ReadApps(paths: set<Path>)
      requires AppsOk(Snapshot()) && EMPTY !in paths
      modifies this`apps
      ensures Rescanned(old(Snapshot()), paths, Snapshot())
    {
      ghost var before := Snapshot();
      var kept, left := KeepKnown(paths);
      var news: seq<App> := AddNew(kept, left);
      apps := SortByPath(news);
      AllListed(before.apps, paths, left, apps);
    }

    lemma AllListed(known: seq<App>, paths: set<Path>, left: set<Path>, listed: seq<App>)
      requires left == set path | path in paths && forall a | a in known :: a.path != path
      requires forall a | a in known && a.path in paths :: a in listed
      requires forall path | path in left :: App(path, None, false) in listed
      ensures forall path | path in paths :: exists a | a in listed :: a.path == path
    {
      forall path | path in paths ensures exists a | a in listed :: a.path == path {
        if path in left {
          assert App(path, None, false) in listed;
        } else {
          var a :| a in known && a.path == path;
        }
      }
    }

    /** Known apps: kept while they are on disk or run; `left` are the paths not seen before. */
    method KeepKnown(paths: set<Path>) returns (kept: seq<App>, left: set<Path>)
      requires DistinctPaths(apps)
      ensures left == set path | path in paths && forall a | a in apps :: a.path != path
      ensures DistinctPaths(kept)
      ensures forall x :: x in kept <==> exists a | a in apps ::
                if a.path in paths then x == a
                else IsRunning(runInfos, a) && x == a.(shouldRemove := true)
    {
      kept, left := [], paths;
      var k := 0;
      while k < |apps|
        invariant k <= |apps|
        invariant left == set path | path in paths && forall a | a in apps[..k] :: a.path != path
        invariant DistinctPaths(kept) && forall x | x in kept :: exists i | 0 <= i < k :: apps[i].path == x.path
        invariant forall x :: x in kept <==> exists a | a in apps[..k] ::
                    if a.path in paths then x == a else IsRunning(runInfos, a) && x == a.(shouldRemove := true)
      {
        var a := apps[k];
        assert apps[..k + 1] == apps[..k] + [a];
        if a.path in left {
          kept := kept + [a];
          left := left - {a.path};
        } else if IsRunning(runInfos, a) {
          kept := kept + [a.(shouldRemove := true)];
        }
        k := k + 1;
      }
      assert apps[..k] == apps;
    }

    method AddNew(kept: seq<App>, left: set<Path>) returns (news: seq<App>)
      requires DistinctPaths(kept) && forall x | x in kept :: x.path !in left
      ensures DistinctPaths(news)
      ensures forall x :: x in news <==> x in kept || (x.path in left && x == App(x.path, None, false))
    {
      news := kept;
      var todo := left;
      while todo != {}
        invariant todo <= left && DistinctPaths(news) && forall x | x in news :: x.path !in todo
        invariant forall x :: x in news <==> x in kept || (x.path in left - todo && x == App(x.path, None, false))
        decreases todo
      {
        var path := Choice.AnyOf(todo);
        news := news + [App(path, None, false)];
        todo := todo - {path};
      }
    }

    /** show: the current app, if any, is paused, which its precondition allows because of the invariant. */
    method Show(paths: set<Path>)
      requires Valid() && Inv(Snapshot()) && EMPTY !in paths
      modifies this
      ensures Valid() && Inv(Snapshot()) && visible && runInfos.Keys == old(runInfos).Keys
      ensures old(visible) ==> Snapshot() == old(Snapshot())
      // exactly the current app is paused, and the list is that of a rescan
      ensures !old(visible) ==>
                && CurrentPaused(old(Snapshot()), runInfos)
                && Rescanned(old(Snapshot()).(runInfos := runInfos, visible := true), paths, Snapshot())
    {
      if visible { return; }
      hide Inv, AllPaused, Rescanned, AppsOk, InfosBelow, CurrentPaused;
      ghost var before := Snapshot();
      PauseCurrent();
      ghost var paused := Snapshot();
      PausedIsOk(paused);
      ReadApps(paths);
      ghost var read := Snapshot();
      visible := true;
      Shown(before, paused, paths, read, Snapshot(), nextInfo);
    }

    /** The launcher after pausing the current app, reading the directories and showing. */
    lemma Shown(before: State, paused: State, paths: set<Path>, read: State, shown: State, next: InfoId)
      requires AllPaused(paused) && paused == before.(runInfos := paused.runInfos) && EMPTY !in paths
      requires Rescanned(paused, paths, read) && shown == read.(visible := true) && InfosBelow(paused, next)
      ensures Inv(shown) && InfosBelow(shown, next) && shown == read.(visible := true)
      ensures shown.current == before.current && shown.previous == before.previous && shown.runInfos == paused.runInfos
      ensures Rescanned(before.(runInfos := paused.runInfos, visible := true), paths, shown)
    {
      ShowKeeps(paused, paths, read);
      RescanMakesNoInfos(paused, paths, read, next);
      hide Inv, AllPaused;
    }

    /** Pauses the current app, which runs unpaused if there is one. */
    method PauseCurrent()
      requires Valid() && Inv(Snapshot()) && !visible
      modifies this`runInfos
      ensures Valid() && AllPaused(Snapshot()) && CurrentPaused(old(Snapshot()), runInfos)
    {
      hide Inv, AllPaused, CurrentPaused;
      ghost var before := Snapshot();
      var current := GetCurrentApp();
      if current.Some? {
        CurrentIsActive(before, current.value);
        Pause(current.value);
      }
      NowPaused(before, current, runInfos);
    }

    lemma PausedIsOk(s: State)
      requires AllPaused(s)
      ensures AppsOk(s)
    {
    }

    lemma ShowKeeps(s: State, paths: set<Path>, t: State)
      requires AllPaused(s) && Rescanned(s, paths, t) && EMPTY !in paths
      ensures t == s.(apps := t.apps) && Inv(t.(visible := true))
    {
      RescanKeeps(s.(visible := true), paths, t.(visible := true));
    }

    lemma CurrentIsActive(s: State, i: nat)
      requires Inv(s) && !s.visible && i < |s.apps| && s.apps[i].path == s.current
      ensures IsRunning(s.runInfos, s.apps[i]) && !IsPaused(s.runInfos, s.apps[i])
    {
      assert s.current != EMPTY;
      var k :| 0 <= k < |s.apps| && s.apps[k].path == s.current && IsRunning(s.runInfos, s.apps[k]);
      PathsAreUnique(s, i, k);
    }

    /** hide: back to the highlighted or the current app; both run, so nothing is launched. */
    method Hide()
      requires Valid() && Inv(Snapshot())
      modifies this
      ensures Valid() && Inv(Snapshot())
      ensures old(visible) && old(previousAppPath) != EMPTY ==> !visible && currentAppPath == old(previousAppPath)
      ensures old(visible) && old(previousAppPath) == EMPTY && old(currentAppPath) != EMPTY ==>
                !visible && currentAppPath == old(currentAppPath)
      ensures !old(visible) || (old(previousAppPath) == EMPTY && old(currentAppPath) == EMPTY) ==>
                Snapshot() == old(Snapshot())
    {
      if !visible { return; }
      var previous := GetPreviousApp();
      if previous.Some? {
        NamedIsRunning(Snapshot(), previousAppPath, previous.value);
        SwitchApp(previous.value, false);
        return;
      }
      assert NamesRunning(Snapshot(), previousAppPath);
      var current := GetCurrentApp();
      if current.Some? {
        NamedIsRunning(Snapshot(), currentAppPath, current.value);
        SwitchApp(current.value, false);
      }
    }

    lemma NamedIsRunning(s: State, path: Path, i: nat)
      requires AppsOk(s) && NamesRunning(s, path) && i < |s.apps| && s.apps[i].path == path
      ensures IsRunning(s.runInfos, s.apps[i])
    {
      var k :| 0 <= k < |s.apps| && s.apps[k].path == path && IsRunning(s.runInfos, s.apps[k]);
      PathsAreUnique(s, i, k);
    }

    /** long_press while the launcher shows: highlights the next running app, going round at the end. */
    method LongPress()
      requires Valid() && Inv(Snapshot())
      modifies this`previousAppPath
      ensures Inv(Snapshot())
      ensures var highlighted := if old(previousAppPath) != EMPTY then old(previousAppPath) else currentAppPath;
              var next := NextHighlight(apps, runInfos, highlighted);
              previousAppPath == if next.Some? then apps[next.value].path else old(previousAppPath)
    {
      hide Inv, FirstRunning, IndexOf, NextHighlight;
      var highlightedAppPath := if previousAppPath != EMPTY then previousAppPath else currentAppPath;
      var firstActiveIndex, currentHighlightIndex := -1, -1;
      var i := 0;
      ghost var chosen: Option<nat> := None;
      while i < |apps|
        invariant i <= |apps|
        invariant Scanned(Snapshot(), highlightedAppPath, i, firstActiveIndex, currentHighlightIndex)
        invariant chosen == if firstActiveIndex == -1 then None else Some(firstActiveIndex)
        invariant previousAppPath == if chosen.Some? then apps[chosen.value].path else old(previousAppPath)
      {
        if firstActiveIndex == -1 && IsRunning(runInfos, apps[i]) {
          previousAppPath := apps[i].path;
          firstActiveIndex := i;
          chosen := Some(i);
        }
        if currentHighlightIndex == -1 && apps[i].path == highlightedAppPath {
          currentHighlightIndex := i;
        } else if currentHighlightIndex > -1 && IsRunning(runInfos, apps[i]) {
          previousAppPath := apps[i].path;
          chosen := Some(i);
          NextFound(Snapshot(), highlightedAppPath, i, firstActiveIndex, currentHighlightIndex);
          break;
        }
        i := i + 1;
      }
      if i == |apps| { NextNotFound(Snapshot(), highlightedAppPath, firstActiveIndex, currentHighlightIndex); }
      Highlighted(old(Snapshot()), NextHighlight(apps, runInfos, highlightedAppPath));
    }

    /** What the two indices say about the apps before `i`; -1 stands for none. */
    static ghost predicate Scanned(s: State, highlighted: Path, i: nat, firstActive: int, highlight: int)
    {
      && i <= |s.apps|
      && -1 <= firstActive < i && -1 <= highlight < i
      && (forall k | 0 <= k < (if firstActive == -1 then i else firstActive) :: !IsRunning(s.runInfos, s.apps[k]))
      && (firstActive != -1 ==> IsRunning(s.runInfos, s.apps[firstActive]))
      && (forall k | 0 <= k < (if highlight == -1 then i else highlight) :: s.apps[k].path != highlighted)
      && (highlight != -1 ==> s.apps[highlight].path == highlighted)
      && (highlight != -1 ==> forall k | highlight < k < i :: !IsRunning(s.runInfos, s.apps[k]))
    }

    static lemma NextFound(s: State, highlighted: Path, i: nat, firstActive: int, highlight: int)
      requires i < |s.apps| && IsRunning(s.runInfos, s.apps[i]) && -1 < highlight < i
      requires forall k | 0 <= k < highlight :: s.apps[k].path != highlighted
      requires s.apps[highlight].path == highlighted && forall k | highlight < k < i :: !IsRunning(s.runInfos, s.apps[k])
      ensures NextHighlight(s.apps, s.runInfos, highlighted) == Some(i)
    {
      assert IndexOf(s.apps, highlighted, 0) == Some(highlight);
    }

    static lemma NextNotFound(s: State, highlighted: Path, firstActive: int, highlight: int)
      requires Scanned(s, highlighted, |s.apps|, firstActive, highlight)
      ensures NextHighlight(s.apps, s.runInfos, highlighted) == if firstActive == -1 then None else Some(firstActive)
    {
      var h := IndexOf(s.apps, highlighted, 0);
      assert h == if highlight == -1 then None else Some(highlight);
      if h.Some? {
        assert FirstRunning(s.apps, s.runInfos, h.value + 1) == None;
      }
    }

    lemma Highlighted(s: State, next: Option<nat>)
      requires Inv(s) && (next.Some? ==> next.value < |s.apps| && IsRunning(s.runInfos, s.apps[next.value]))
      ensures next.Some? ==> Inv(s.(previous := s.apps[next.value].path))
    {
    }

    /** updateStoppedApps: `dead` are the run infos of the processes that have ended. */
    method UpdateStoppedApps(dead: set<InfoId>, paths: set<Path>) returns (ghost stopped: State)
      requires Valid() && Inv(Snapshot()) && EMPTY !in paths
      modifies this
      ensures Valid() && Inv(Snapshot())
      ensures StoppedGone(old(Snapshot()), dead, stopped)
      // the launcher then shows iff the current app has stopped
      ensures if !Stops(old(Snapshot()), old(runInfos) - dead, old(currentAppPath)) || old(visible) then Snapshot() == stopped
              else CurrentPaused(stopped, runInfos)
                   && Rescanned(stopped.(runInfos := runInfos, visible := true), paths, Snapshot())
    {
      hide Inv, Rescanned, CurrentPaused, StoppedGone, Stops;
      ghost var before := Snapshot();
      runInfos := runInfos - dead;
      var shouldShow := false;
      var current := GetCurrentApp();
      if current.Some? && !IsRunning(runInfos, apps[current.value]) {
        currentAppPath := EMPTY;
        shouldShow := true;
      }
      var previous := GetPreviousApp();
      if previous.Some? && !IsRunning(runInfos, apps[previous.value]) {
        previousAppPath := EMPTY;
      }
      StoppedKeeps(before, dead, current, previous);
      RemoveStopped();
      stopped := Snapshot();
      ExactlyStopped(before, dead, current, previous, stopped);
      if shouldShow { Show(paths); }
    }

    lemma ExactlyStopped(s: State, dead: set<InfoId>, current: Option<nat>, previous: Option<nat>, t: State)
      requires Inv(s) && FoundAt(s, s.current, current) && FoundAt(s, s.previous, previous)
      requires var infos := s.runInfos - dead;
               && t == State(t.apps, infos, s.visible, Cleared(s, infos, s.current, current),
                             Cleared(s, infos, s.previous, previous))
               && forall a :: a in t.apps <==> a in s.apps && (a.shouldRemove ==> IsRunning(infos, a))
      ensures StoppedGone(s, dead, t)
      ensures Stops(s, s.runInfos - dead, s.current) <==>
              current.Some? && !IsRunning(s.runInfos - dead, s.apps[current.value])
    {
      StopsIff(s, s.runInfos - dead, s.current, current);
      StopsIff(s, s.runInfos - dead, s.previous, previous);
    }

    lemma StopsIff(s: State, infos: map<InfoId, bool>, path: Path, app: Option<nat>)
      requires AppsOk(s) && FoundAt(s, path, app)
      ensures Stops(s, infos, path) <==> app.Some? && !IsRunning(infos, s.apps[app.value])
    {
      if app.Some? {
        forall i | 0 <= i < |s.apps| && s.apps[i].path == path ensures i == app.value { PathsAreUnique(s, i, app.value); }
      }
    }

    /** The path after its app has possibly stopped. */
    ghost function Cleared(s: State, infos: map<InfoId, bool>, path: Path, app: Option<nat>): Path
      requires app.Some? ==> app.value < |s.apps|
    {
      if app.Some? && !IsRunning(infos, s.apps[app.value]) then EMPTY else path
    }

    ghost predicate FoundAt(s: State, path: Path, app: Option<nat>) {
      match app
      case Some(i) => i < |s.apps| && s.apps[i].path == path
      case None => path == EMPTY || forall k | 0 <= k < |s.apps| :: s.apps[k].path != path
    }

    lemma StoppedKeeps(s: State, dead: set<InfoId>, current: Option<nat>, previous: Option<nat>)
      requires Inv(s) && FoundAt(s, s.current, current) && FoundAt(s, s.previous, previous)
      ensures var infos := s.runInfos - dead;
              Inv(s.(runInfos := infos, current := Cleared(s, infos, s.current, current),
                     previous := Cleared(s, infos, s.previous, previous)))
    {
      var infos := s.runInfos - dead;
      var t := s.(runInfos := infos, current := Cleared(s, infos, s.current, current),
                  previous := Cleared(s, infos, s.previous, previous));
      assert AppsOk(t);
      assert NamesRunning(t, t.current) && NamesRunning(t, t.previous);
      forall i | 0 <= i < |t.apps| && IsRunning(infos, t.apps[i]) && (t.visible || t.apps[i].path != t.current)
        ensures IsPaused(infos, t.apps[i])
      {
        if t.apps[i].path == s.current {
          assert s.visible || current.Some?;
          PathsAreUnique(s, i, current.value);
        }
      }
    }

    /** Forgets marked apps that do not run any more. */
    method RemoveStopped()
      requires Valid() && Inv(Snapshot())
      modifies this`apps
      ensures Valid() && Inv(Snapshot())
      ensures forall a :: a in apps <==> a in old(apps) && (a.shouldRemove ==> IsRunning(runInfos, a))
    {
      hide Inv;
      ghost var before := Snapshot();
      ListedApart(before);
      var kept: seq<App> := [];
      var k := 0;
      while k < |apps|
        invariant k <= |apps| && DistinctPaths(kept)
        invariant forall a :: a in kept <==> a in apps[..k] && (a.shouldRemove ==> IsRunning(runInfos, a))
      {
        forall a | a in kept ensures a.path != apps[k].path {
          assert a in apps[..k];
        }
        if !apps[k].shouldRemove || IsRunning(runInfos, apps[k]) { kept := kept + [apps[k]]; }
        k := k + 1;
      }
      assert apps[..k] == apps;
      apps := kept;
      SublistKeeps(before, Snapshot());
    }

    lemma ListedApart(s: State)
      requires Inv(s)
      ensures DistinctPaths(s.apps)
    {
    }

    lemma SublistKeeps(s: State, t: State)
      requires Inv(s) && t == s.(apps := t.apps) && DistinctPaths(t.apps)
      requires forall a | a in t.apps :: a in s.apps
      requires forall a | a in s.apps && IsRunning(s.runInfos, a) :: a in t.apps
      ensures Inv(t)
    {
      forall i | 0 <= i < |t.apps| ensures t.apps[i] in s.apps { assert t.apps[i] in t.apps; }
      forall path: Path | NamesRunning(s, path) && path != EMPTY ensures NamesRunning(t, path) {
        var k :| 0 <= k < |s.apps| && s.apps[k].path == path && IsRunning(s.runInfos, s.apps[k]);
        assert s.apps[k] in t.apps;
      }
    }

    /**
     A failing run: of two apps on disk the first is launched, then launching the second fails. The first is left paused
     although it is current and the launcher is hidden; show would pause it again.
     */
    static method FailingRun() returns (l: LauncherState)
      ensures !Inv(l.Snapshot()) && !l.visible && l.currentAppPath != EMPTY
      ensures exists i | 0 <= i < |l.apps| :: l.apps[i].path == l.currentAppPath && IsPaused(l.runInfos, l.apps[i])
    {
      hide Inv, AllPaused, AppsOk, Rescanned;
      l := new LauncherState();
      ghost var empty := l.Snapshot();
      EmptyIsOk(empty);
      l.ReadApps({1, 2});
      TwoApps(empty, l.Snapshot());
      l.SwitchApp(0, true);
      PathsNotEmpty(l.Snapshot());
      l.SwitchApp(1, false);
      FailedLaunchThenShow(l.Snapshot());
    }

    static lemma EmptyIsOk(s: State)
      requires s.apps == []
      ensures AppsOk(s)
    {
    }

    static lemma PathsNotEmpty(s: State)
      requires Inv(s)
      ensures forall a | a in s.apps :: a.path != EMPTY
    {
    }

    /** Two apps found on disk by a launcher that knows none. */
    static lemma TwoApps(s: State, t: State)
      requires s == State([], map[], true, EMPTY, EMPTY) && Rescanned(s, {1, 2}, t)
      ensures Inv(t) && InfosBelow(t, 0) && |t.apps| >= 2 && forall a | a in t.apps :: a.runInfo == None
    {
      var paths: set<Path> := {1, 2};
      RescanKeeps(s, paths, t);
      NewApps(s, paths, t);
      hide Rescanned, AppsOk;
      var p: Path, q: Path := 1, 2;
      assert p in paths && q in paths;
      TwoPaths(t.apps, p, q);
    }

    static lemma NewApps(s: State, paths: set<Path>, t: State)
      requires s == State([], map[], true, EMPTY, EMPTY) && Rescanned(s, paths, t)
      ensures t == s.(apps := t.apps) && (forall a | a in t.apps :: a.runInfo == None)
      ensures forall path | path in paths :: exists a | a in t.apps :: a.path == path
    {
    }

    static lemma TwoPaths(apps: seq<App>, p: Path, q: Path)
      requires p != q && (exists a | a in apps :: a.path == p) && exists a | a in apps :: a.path == q
      ensures |apps| >= 2
    {
      var i :| 0 <= i < |apps| && apps[i].path == p;
      var j :| 0 <= j < |apps| && apps[j].path == q;
      assert i != j;
    }

    /**
     Every run in which launches succeed keeps the invariant. That the calls of Pause, Resume and Launch below verify
     also shows that their preconditions are never violated.
     */
    method Run(events: seq<Event>)
      requires Valid() && Inv(Snapshot()) && forall e | e in events :: PathsOk(e)
      modifies this
      ensures Valid() && Inv(Snapshot())
    {
      hide Inv;
      var k := 0;
      while k < |events|
        invariant k <= |events| && Valid() && Inv(Snapshot())
      {
        assert PathsOk(events[k]);
        match events[k] {
          case Tap(app) => if app < |apps| { SwitchApp(app, true); }
          case ShowLauncher(paths) => Show(paths);
          case HideLauncher => Hide();
          case HighlightNext => LongPress();
          case ProcessesEnded(dead, paths) => ghost var stopped := UpdateStoppedApps(dead, paths);
        }
        k := k + 1;
      }
    }
  }
}
