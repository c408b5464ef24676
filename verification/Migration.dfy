/** Moving credentials from legacy files into the broker:
    src/artek_buddy/credential_broker.py, migrate_legacy_credentials.

    Any step may fail: reading or removing a file, and any call to the broker, which may
    also fail after it has taken effect.  Others may add credentials to the broker meanwhile. */
module Migration {
  import opened Wrappers
  import opened Text

  /** A directory and a name in it; in the broker, a bot and a provider. */
  type Path = (string, string)

  /** A directory entry; `plain` is a regular file, not a link, that resolves inside the root. */
  datatype File = File(text: string, plain: bool) {
    function Value(): string {
      Strip(text)
    }
  }

  datatype World = World(files: map<Path, File>, broker: map<Path, string>)

  datatype State = Missing | Same | Different

  /** What a call gives: its value, an exception that the migration catches, or one that it
      does not, such as a database error, which ends the run. */
  datatype Call<+T> = Got(value: T) | Caught | Uncaught

  datatype Outcome = Migrated | Cleaned | Stale | Failed

  datatype Report = Report(migrated: nat, cleanedExisting: nat, staleRemoved: nat, failed: nat) {
    /** The report with the outcomes of some more files, and of directories left behind. */
    ghost function Plus(outs: map<Path, Outcome>, undeleted: nat): Report {
      Report(migrated + Count(outs, Migrated), cleanedExisting + Count(outs, Cleaned),
             staleRemoved + Count(outs, Stale), failed + Count(outs, Failed) + undeleted)
    }
  }

  function Having(outs: map<Path, Outcome>, o: Outcome): set<Path> {
    set p | p in outs && outs[p] == o
  }

  function Count(outs: map<Path, Outcome>, o: Outcome): nat {
    |Having(outs, o)|
  }

  /** What the names mean: the provider a file name stands for, and the bot directories. */
  datatype Names = Names(slug: map<string, string>, bots: set<string>) {
    function Key(p: Path): Path
      requires p.1 in slug
    {
      (p.0, slug[p.1])
    }

    /** The entries the migration handles. */
    predicate Eligible(p: Path, f: File) {
      p.0 in bots && f.plain && !EndsWith(p.1, ".meta") && !EndsWith(p.1, ".tmp") && p.1 in slug
    }
  }

  function LastDot(s: string): (i: int)
    ensures -1 <= i < |s|
  {
    if s == "" then -1 else if s[|s| - 1] == '.' then |s| - 1 else LastDot(s[..|s| - 1])
  }

  const MAX_SECRET := 8000

  /** What the broker takes as a value. */
  predicate Storable(value: string) {
    0 < |value| <= MAX_SECRET
  }

  function StateOf(broker: map<Path, string>, key: Path, value: string): State {
    if key !in broker then Missing else if broker[key] == value then Same else Different
  }

  // ---------------------------------------------------------------------------
  // What holds in every intermediate state

  /** No credential of `before` is changed or lost in `after`. */
  predicate Grows(before: map<Path, string>, after: map<Path, string>) {
    forall k :: k in before ==> k in after && after[k] == before[k]
  }

  /** While the file was still there, the broker already held another value for it. */
  ghost predicate Rival(names: Names, trace: seq<World>, i: nat, p: Path, f: File)
    requires p.1 in names.slug && i < |trace|
  {
    exists h :: 0 <= h <= i && p in trace[h].files && StateOf(trace[h].broker, names.Key(p), f.Value()) == Different
  }

  /** State i of the run has lost nothing that state 0 had. */
  ghost predicate Kept(names: Names, trace: seq<World>, i: nat)
    requires i < |trace|
  {
    var w0, w := trace[0], trace[i];
    && Grows(w0.broker, w.broker)
    && (forall p :: p in w.files ==> p in w0.files && w.files[p] == w0.files[p])
    && (forall p :: p in w0.files && p !in w.files ==>
          && names.Eligible(p, w0.files[p])
          && names.Key(p) in w.broker
          && (w.broker[names.Key(p)] == w0.files[p].Value() || Rival(names, trace, i, p, w0.files[p])))
  }

  ghost predicate AllKept(names: Names, trace: seq<World>) {
    && trace != []
    && (forall i :: 0 <= i < |trace| ==> Kept(names, trace, i))
    && (forall i, j :: 0 <= i <= j < |trace| ==> Grows(trace[i].broker, trace[j].broker))
  }

  /** Files are only ever removed. */
  predicate Shrunk(after: map<Path, File>, before: map<Path, File>) {
    forall p :: p in after ==> p in before && before[p] == after[p]
  }

  /** Files and metadata files are removed from one directory only. */
  ghost predicate OnlyIn(dir: string, f: map<Path, File>, m: set<Path>, f': map<Path, File>, m': set<Path>) {
    && Shrunk(f', f) && m' <= m
    && forall p: Path :: p.0 != dir ==> (p in f' <==> p in f) && (p in m' <==> p in m)
  }

  lemma OnlyHere(f: map<Path, File>, m: set<Path>, f': map<Path, File>, m': set<Path>, p: Path, meta: Path)
    requires meta.0 == p.0 && (f' == f || f' == f - {p}) && (m' == m || m' == m - {meta})
    ensures OnlyIn(p.0, f, m, f', m')
  {}

  lemma OnlySame(dir: string, f: map<Path, File>, m: set<Path>)
    ensures OnlyIn(dir, f, m, f, m)
  {}

  lemma OnlyAt(dir: string, f: map<Path, File>, m: set<Path>, f': map<Path, File>, m': set<Path>, p: Path)
    requires OnlyIn(dir, f, m, f', m') && p in f'
    ensures p in f && f'[p] == f[p]
  {}

  lemma OnlyThen(dir: string, f: map<Path, File>, m: set<Path>, f': map<Path, File>, m': set<Path>, f'': map<Path, File>, m'': set<Path>)
    requires OnlyIn(dir, f, m, f', m') && OnlyIn(dir, f', m', f'', m'')
    ensures OnlyIn(dir, f, m, f'', m'') && Shrunk(f', f) && Shrunk(f'', f')
  {}

  lemma GrowsSame(a: map<Path, string>)
    ensures Grows(a, a)
  {}

  lemma GrowsOn(a: map<Path, string>, b: map<Path, string>, c: map<Path, string>)
    requires Grows(a, b) && Grows(b, c)
    ensures Grows(a, c)
  {}

  lemma KeptLonger(names: Names, trace: seq<World>, w: World, i: nat)
    requires i < |trace| && Kept(names, trace, i)
    ensures Kept(names, trace + [w], i)
  {
    var t := trace + [w];
    assert forall h :: 0 <= h <= i ==> t[h] == trace[h];
    forall p: Path | p.1 in names.slug && p in trace[0].files && Rival(names, trace, i, p, trace[0].files[p])
      ensures Rival(names, t, i, p, trace[0].files[p])
    {
      var h :| 0 <= h <= i && p in trace[h].files
               && StateOf(trace[h].broker, names.Key(p), trace[0].files[p].Value()) == Different;
      assert t[h] == trace[h];
    }
  }

  /** A step that only adds credentials, or removes one file whose credential the broker
      holds, loses nothing. */
  lemma StepKept(names: Names, trace: seq<World>, w: World, gone: set<Path>)
    requires AllKept(names, trace)
    requires var last := trace[|trace| - 1];
             && Grows(last.broker, w.broker)
             && w.files == last.files - gone
             && forall p :: p in gone && p in last.files ==>
                  names.Eligible(p, last.files[p]) && names.Key(p) in last.broker
    ensures AllKept(names, trace + [w])
  {
    var t, n := trace + [w], |trace|;
    forall i | 0 <= i < |t| ensures Kept(names, t, i) {
      if i < n { KeptLonger(names, trace, w, i); } else { LastKept(names, trace, w, gone); }
    }
    forall i, j | 0 <= i <= j < |t| ensures Grows(t[i].broker, t[j].broker) {
      if i < j == n { assert Grows(trace[i].broker, trace[n - 1].broker); }
    }
  }

  lemma LastKept(names: Names, trace: seq<World>, w: World, gone: set<Path>)
    requires AllKept(names, trace)
    requires var last := trace[|trace| - 1];
             && Grows(last.broker, w.broker)
             && w.files == last.files - gone
             && forall p :: p in gone && p in last.files ==>
                  names.Eligible(p, last.files[p]) && names.Key(p) in last.broker
    ensures Kept(names, trace + [w], |trace|)
  {
    hide Names.Eligible, File.Value;
    var t, n := trace + [w], |trace|;
    var w0, last := trace[0], trace[n - 1];
    assert Kept(names, trace, n - 1) && t[0] == w0 && t[n] == w && t[n - 1] == last;
    forall p | p in w0.files && p !in w.files
      ensures p.1 in names.slug && names.Eligible(p, w0.files[p]) && names.Key(p) in w.broker
      ensures w.broker[names.Key(p)] == w0.files[p].Value() || Rival(names, t, n, p, w0.files[p])
    {
      KeyKnown(names, p, w0.files[p]);
      var key, value := names.Key(p), w0.files[p].Value();
      if p in last.files {
        if last.broker[key] != value { assert p in t[n - 1].files && StateOf(t[n - 1].broker, key, value) == Different; }
      } else if last.broker[key] != value {
        var h :| 0 <= h <= n - 1 && p in trace[h].files && StateOf(trace[h].broker, key, value) == Different;
        assert t[h] == trace[h];
      }
    }
  }

  /** What AllKept gives a reader: at every moment each legacy credential is still in its
      file, or the broker holds a value for that bot and provider: the file's own, unless it
      held another one while the file was there. */
  lemma NeverLost(names: Names, trace: seq<World>, i: nat, p: Path)
    requires AllKept(names, trace) && i < |trace| && p in trace[0].files
    ensures var f, w := trace[0].files[p], trace[i];
            || (p in w.files && w.files[p] == f)
            || (p.1 in names.slug && names.Key(p) in w.broker &&
                  (w.broker[names.Key(p)] == f.Value() || Rival(names, trace, i, p, f)))
    ensures forall j, k :: 0 <= j <= i && k in trace[j].broker ==>
              k in trace[i].broker && trace[i].broker[k] == trace[j].broker[k]
  {
    assert Kept(names, trace, i);
    assert forall j :: 0 <= j <= i ==> Grows(trace[j].broker, trace[i].broker);
  }

  lemma ValueStripped(f: File)
    ensures Strip(f.Value()) == f.Value()
  {
    StripTwice(f.text);
  }

  lemma KeyKnown(names: Names, p: Path, f: File)
    ensures names.Eligible(p, f) ==> p.1 in names.slug
  {}

  // ---------------------------------------------------------------------------
  // What the report counts

  lemma CountNone(o: Outcome)
    ensures Count(map[], o) == 0
  {}

  lemma CountMerge(a: map<Path, Outcome>, b: map<Path, Outcome>, o: Outcome)
    requires a.Keys !! b.Keys
    ensures Count(a + b, o) == Count(a, o) + Count(b, o)
  {
    hide Having;
    HavingMerge(a, b, o);
    DisjointSize(Having(a, o), Having(b, o));
  }

  lemma HavingMerge(a: map<Path, Outcome>, b: map<Path, Outcome>, o: Outcome)
    requires a.Keys !! b.Keys
    ensures Having(a + b, o) == Having(a, o) + Having(b, o) && Having(a, o) !! Having(b, o)
  {}

  lemma DisjointSize(x: set<Path>, y: set<Path>)
    requires x !! y
    ensures |x + y| == |x| + |y|
  {}

  lemma PlusMerge(report: Report, a: map<Path, Outcome>, b: map<Path, Outcome>, m: nat, n: nat)
    requires a.Keys !! b.Keys
    ensures report.Plus(a, m).Plus(b, n) == report.Plus(a + b, m + n)
    ensures report.Plus(map[], 0) == report
  {
    hide Count;
    CountMerge(a, b, Migrated);
    CountMerge(a, b, Cleaned);
    CountMerge(a, b, Stale);
    CountMerge(a, b, Failed);
    CountNone(Migrated);
    CountNone(Cleaned);
    CountNone(Stale);
    CountNone(Failed);
  }

  lemma PlusOne(report: Report, p: Path, o: Outcome)
    ensures report.Plus(map[p := o], 0) ==
            match o
            case Migrated => report.(migrated := report.migrated + 1)
            case Cleaned => report.(cleanedExisting := report.cleanedExisting + 1)
            case Stale => report.(staleRemoved := report.staleRemoved + 1)
            case Failed => report.(failed := report.failed + 1)
  {
    forall x: Outcome ensures Count(map[p := o], x) == if x == o then 1 else 0 {
      assert Having(map[p := o], x) == if x == o then {p} else {};
    }
  }

  /** What an outcome means of the file it is reported for. */
  predicate Told(names: Names, p: Path, f: File, o: Outcome, before: map<Path, string>, now: World)
    requires p.1 in names.slug
  {
    var key := names.Key(p);
    o != Failed ==>
      && p !in now.files && key in now.broker
      && (o == Migrated ==> key !in before)
      && (o == Stale <==> now.broker[key] != f.Value())
  }

  /** Each of these files was eligible, and its outcome is true of it. */
  ghost predicate AllTold(names: Names, outs: map<Path, Outcome>, before: World, now: World) {
    forall p :: p in outs ==>
      p in before.files && names.Eligible(p, before.files[p])
      && Told(names, p, before.files[p], outs[p], before.broker, now)
  }

  /** The outcomes are true.  Of the files that did not fail, exactly the migrated ones were
      stored by this run; and if no call failed, only files fail whose value the broker does
      not take. */
  ghost predicate Account(names: Names, outs: map<Path, Outcome>, before: World, now: World,
                          mine: set<Path>, mine': set<Path>, clean: bool) {
    && AllTold(names, outs, before, now)
    && mine <= mine' <= mine + outs.Keys
    && forall p :: p in outs ==>
         && (outs[p] == Migrated ==> p in mine')
         && (outs[p] == Cleaned || outs[p] == Stale ==> p !in mine')
         && (clean && outs[p] == Failed ==> p in before.files && !Storable(before.files[p].Value()))
  }

  lemma AccountNone(names: Names, w: World, mine: set<Path>)
    ensures Account(names, map[], w, w, mine, mine, true)
  {}

  lemma AccountMerge(names: Names, a: map<Path, Outcome>, b: map<Path, Outcome>, before: World, mid: World, now: World,
                     mine: set<Path>, mine': set<Path>, mine'': set<Path>, clean: bool, clean': bool)
    requires Account(names, a, before, mid, mine, mine', clean) && Account(names, b, mid, now, mine', mine'', clean')
    requires a.Keys !! b.Keys && Grows(before.broker, mid.broker) && Grows(mid.broker, now.broker)
    requires Shrunk(mid.files, before.files) && Shrunk(now.files, mid.files)
    ensures Account(names, a + b, before, now, mine, mine'', clean && clean')
    ensures Grows(before.broker, now.broker)
  {
    hide File.Value, Storable, AllTold;
    ToldMore(names, a, b, before, mid, now);
  }

  lemma AccountFault(names: Names, outs: map<Path, Outcome>, before: World, now: World, mine: set<Path>, mine': set<Path>)
    ensures Account(names, outs, before, now, mine, mine', true) ==> Account(names, outs, before, now, mine, mine', false)
  {}

  lemma NotYetMine(names: Names, outs: map<Path, Outcome>, before: World, now: World,
                   mine: set<Path>, mine': set<Path>, clean: bool, p: Path)
    requires Account(names, outs, before, now, mine, mine', clean) && p !in outs && p !in mine
    ensures p !in mine'
  {}

  lemma AccountOne(names: Names, p: Path, o: Outcome, before: World, now: World,
                   mine: set<Path>, mine': set<Path>, clean: bool)
    requires p in before.files && names.Eligible(p, before.files[p])
    requires Told(names, p, before.files[p], o, before.broker, now)
    requires mine <= mine' <= mine + {p} && p !in mine
    requires o == Migrated ==> p in mine'
    requires o == Cleaned || o == Stale ==> p !in mine'
    requires clean && o == Failed ==> !Storable(before.files[p].Value())
    ensures Account(names, map[p := o], before, now, mine, mine', clean)
  {
    ToldOne(names, p, o, before, now);
  }

  lemma OneMore(report: Report)
    ensures report.Plus(map[], 1) == report.(failed := report.failed + 1)
  {
    PlusMerge(report, map[], map[], 0, 0);
  }

  lemma ToldLater(names: Names, outs: map<Path, Outcome>, before: World, mid: World, now: World)
    requires AllTold(names, outs, before, mid)
    requires Grows(mid.broker, now.broker) && now.files.Keys <= mid.files.Keys
    ensures AllTold(names, outs, before, now)
  {
    hide File.Value;
  }

  lemma ToldMore(names: Names, a: map<Path, Outcome>, b: map<Path, Outcome>, before: World, mid: World, now: World)
    requires AllTold(names, a, before, mid) && AllTold(names, b, mid, now)
    requires Grows(before.broker, mid.broker) && Grows(mid.broker, now.broker)
    requires Shrunk(mid.files, before.files) && Shrunk(now.files, mid.files)
    ensures AllTold(names, a + b, before, now)
  {
    hide File.Value, Names.Eligible;
    ToldLater(names, a, before, mid, now);
  }

  lemma ToldOne(names: Names, p: Path, o: Outcome, before: World, now: World)
    requires p in before.files && names.Eligible(p, before.files[p])
    requires Told(names, p, before.files[p], o, before.broker, now)
    ensures AllTold(names, map[p := o], before, now)
  {}

  // ---------------------------------------------------------------------------
  // Which files are handled

  /** The entries the migration handles, of these directories. */
  ghost function Sources(names: Names, files: map<Path, File>, of: set<string>): set<Path> {
    set p | p in files && p.0 in of && names.Eligible(p, files[p])
  }

  ghost predicate SameIn(dirs: set<string>, a: map<Path, File>, b: map<Path, File>) {
    forall p: Path :: p.0 in dirs ==> (p in a <==> p in b)
  }

  lemma SourcesAdd(names: Names, files0: map<Path, File>, files: map<Path, File>, of: set<string>, todo: set<string>, dir: string)
    requires Shrunk(files, files0) && SameIn(todo, files, files0) && dir in todo && dir !in of
    ensures var more := Sources(names, files, {dir});
            Sources(names, files0, of + {dir}) == Sources(names, files0, of) + more && Sources(names, files0, of) !! more
    ensures dir !in names.bots ==> Sources(names, files, {dir}) == {}
  {}

  lemma SameMore(dir: string, files0: map<Path, File>, f: map<Path, File>, m: set<Path>, f': map<Path, File>, m': set<Path>,
                 todo: set<string>)
    requires Shrunk(f, files0) && SameIn(todo, f, files0) && OnlyIn(dir, f, m, f', m')
    ensures SameIn(todo - {dir}, f', files0) && Shrunk(f', files0) && Shrunk(f', f)
  {}

  lemma SameSelf(todo: set<string>, f: map<Path, File>)
    ensures SameIn(todo, f, f) && Shrunk(f, f)
  {}

  /** What this run has stored so far is not of a directory that it has not come to. */
  lemma NoneOfDir(names: Names, outs: map<Path, Outcome>, before: World, now: World, of: set<string>, dir: string,
                  mine: set<Path>, clean: bool)
    requires Account(names, outs, before, now, {}, mine, clean)
    requires outs.Keys == Sources(names, before.files, of) && dir !in of
    ensures forall q :: q in mine ==> q.0 != dir
  {}

  lemma SourcesNone(names: Names, files: map<Path, File>)
    ensures Sources(names, files, {}) == {}
  {}

  /** The entries of one directory. */
  function Entries(files: map<Path, File>, dir: string): set<Path> {
    set p | p in files && p.0 == dir
  }

  lemma SourcesStep(names: Names, files: map<Path, File>, dir: string, todo: set<Path>, p: Path)
    requires p in todo && todo <= Entries(files, dir)
    ensures var all := Sources(names, files, {dir});
            all - (todo - {p}) == if names.Eligible(p, files[p]) then all - todo + {p} else all - todo
  {}

  lemma EntryOf(files: map<Path, File>, dir: string, p: Path)
    ensures p in Entries(files, dir) <==> p in files && p.0 == dir
    ensures Entries(files, dir) <= files.Keys
  {}

  /** Nothing is left of the directory but these entries and ones that are not handled. */
  predicate NoneLeft(names: Names, files: map<Path, File>, dir: string, todo: set<Path>) {
    forall p :: p in files && p.0 == dir && p !in todo ==> !names.Eligible(p, files[p])
  }

  lemma LeftAtFirst(names: Names, files: map<Path, File>, dir: string)
    ensures NoneLeft(names, files, dir, Entries(files, dir)) && Entries(files, dir) <= files.Keys
  {}

  lemma LeftStep(names: Names, before: map<Path, File>, after: map<Path, File>, dir: string, todo: set<Path>, p: Path)
    requires p in before && (after == before || after == before - {p})
    ensures NoneLeft(names, before, dir, todo + {p}) && (p !in after || !names.Eligible(p, before[p])) ==>
              NoneLeft(names, after, dir, todo)
  {}

  lemma LeftAtLast(names: Names, files: map<Path, File>, dir: string)
    ensures NoneLeft(names, files, dir, {}) ==> forall p :: p in files && p.0 == dir ==> !names.Eligible(p, files[p])
  {}

  lemma SourcesAll(names: Names, files: map<Path, File>, dir: string)
    ensures Sources(names, files, {dir}) - Entries(files, dir) == {}
  {}

  /** A directory with nothing in it. */
  predicate Vacant(files: map<Path, File>, metas: set<Path>, dir: string) {
    (forall p :: p in files ==> p.0 != dir) && (forall p :: p in metas ==> p.0 != dir)
  }

  /** Those of these bot directories that exist hold no legacy credential and are not empty. */
  predicate Settled(names: Names, files: map<Path, File>, metas: set<Path>, dirs: set<string>, of: set<string>) {
    forall dir :: dir in of && dir in dirs && dir in names.bots ==>
      NoneLeft(names, files, dir, {}) && !Vacant(files, metas, dir)
  }

  lemma SettledOne(names: Names, files: map<Path, File>, metas: set<Path>, dirs: set<string>, dir: string)
    ensures Settled(names, files, metas, dirs, {})
    ensures dir in dirs && dir in names.bots ==>
              (Settled(names, files, metas, dirs, {dir}) <==>
               NoneLeft(names, files, dir, {}) && !Vacant(files, metas, dir))
    ensures dir !in dirs || dir !in names.bots ==> Settled(names, files, metas, dirs, {dir})
  {
    hide NoneLeft, Vacant;
  }

  lemma SettledMore(names: Names, f: map<Path, File>, m: set<Path>, d: set<string>,
                    f': map<Path, File>, m': set<Path>, d': set<string>, of: set<string>, dir: string)
    requires Settled(names, f, m, d, of) && Settled(names, f', m', d', {dir})
    requires OnlyIn(dir, f, m, f', m') && (d' == d || d' == d - {dir})
    ensures Settled(names, f', m', d', of + {dir})
  {
    hide Names.Eligible;
    forall x | x in of && x != dir && x in d' && x in names.bots
      ensures NoneLeft(names, f', x, {}) && !Vacant(f', m', x)
    {
      assert NoneLeft(names, f, x, {}) && !Vacant(f, m, x);
    }
  }

  lemma SettledSkip(names: Names, f: map<Path, File>, m: set<Path>, d: set<string>, of: set<string>, dir: string)
    requires Settled(names, f, m, d, of) && dir !in names.bots
    ensures Settled(names, f, m, d, of + {dir})
  {
    hide NoneLeft, Vacant;
  }

  lemma SettledWithin(names: Names, f: map<Path, File>, m: set<Path>, d: set<string>, of: set<string>, dirs: set<string>)
    requires Settled(names, f, m, d, of) && dirs <= of
    ensures Settled(names, f, m, d, dirs)
  {
    hide NoneLeft, Vacant;
  }

  // ---------------------------------------------------------------------------
  // The migration

  class Migrator {
    const names: Names
    var files: map<Path, File>
    var metas: set<Path>
    var dirs: set<string>
    var broker: map<Path, string>
    ghost var trace: seq<World>
    /** How many calls have raised so far, and the files whose values this run has stored. */
    ghost var faults: nat
    ghost var mine: set<Path>

    ghost function Now(): World
      reads this`files, this`broker
    {
      World(files, broker)
    }

    /** Every state so far is kept, the current one is recorded, and entries lie in
        directories that exist. */
    ghost predicate Valid()
      reads this`files, this`metas, this`dirs, this`broker, this`trace
    {
      && AllKept(names, trace) && trace[|trace| - 1] == Now()
      && (forall p :: p in files ==> p.0 in dirs) && (forall p :: p in metas ==> p.0 in dirs)
    }

    constructor (names: Names, files: map<Path, File>, metas: set<Path>, dirs: set<string>, broker: map<Path, string>)
      requires (forall p :: p in files ==> p.0 in dirs) && (forall p :: p in metas ==> p.0 in dirs)
      ensures Valid() && trace == [World(files, broker)]
      ensures this.names == names && this.metas == metas && this.dirs == dirs
    {
      this.names, this.files, this.metas, this.dirs, this.broker := names, files, metas, dirs, broker;
      trace, faults, mine := [World(files, broker)], 0, {};
    }

    /** The trace so far is a prefix of the trace now. */
    twostate predicate Continues()
      reads this`trace
    {
      old(trace) <= trace
    }

    /** The broker adds what others have stored meanwhile. */
    method Interference()
      requires Valid()
      modifies this`broker, this`trace
      ensures Valid() && Continues() && Grows(old(broker), broker)
    {
      var more: map<Path, string> := *;
      broker := more + broker;
      StepKept(names, trace, Now(), {});
      trace := trace + [Now()];
    }

    /** A step that may raise. */
    method MayFail() returns (fails: bool)
      modifies this`faults
      ensures faults == old(faults) + if fails then 1 else 0
    {
      fails := *;
      faults := faults + if fails then 1 else 0;
    }

    method SecretState(key: Path, value: string) returns (r: Call<State>)
      requires Valid()
      modifies this`broker, this`trace, this`faults
      ensures Valid() && Continues() && Grows(old(broker), broker)
      ensures r.Got? ==> r.value == StateOf(broker, key, value)
      ensures faults == old(faults) + if r.Got? then 0 else 1
    {
      Interference();
      r := *;
      if r.Got? { r := Got(StateOf(broker, key, value)); } else { faults := faults + 1; }
    }

    /** Whether a row was inserted; the call may also raise, before or after its effect.  A
        value that the broker does not take always raises. */
    method PutIfMissing(key: Path, secret: string, ghost source: Path) returns (inserted: Call<bool>)
      requires Valid()
      modifies this`broker, this`trace, this`faults, this`mine
      ensures Valid() && Continues() && Grows(old(broker), broker)
      ensures inserted == Got(true) ==> key !in old(broker) && key in broker && broker[key] == Strip(secret)
      ensures inserted == Got(false) ==> key in broker
      ensures inserted.Got? ==> Storable(Strip(secret)) && faults == old(faults)
      ensures inserted.Got? ==> mine == old(mine) + if inserted.value then {source} else {}
      ensures old(mine) <= mine <= old(mine) + {source} && faults >= old(faults)
      ensures !inserted.Got? && faults == old(faults) ==> inserted.Caught? && !Storable(Strip(secret))
    {
      Interference();
      var value := Strip(secret);
      if value == "" || |value| > MAX_SECRET { return Caught; }
      inserted := *;
      if !inserted.Got? { faults := faults + 1; return; }
      inserted := Got(key !in broker);
      if key !in broker {
        broker := broker[key := value];
        mine := mine + {source};
        StepKept(names, trace, Now(), {});
        trace := trace + [Now()];
      }
      var late: Call<bool> := *;
      if !late.Got? { faults := faults + 1; inserted := late; }
    }

    method ConfirmSecret(key: Path, value: string) returns (ok: Call<bool>)
      requires Valid()
      modifies this`broker, this`trace, this`faults
      ensures Valid() && Continues() && Grows(old(broker), broker)
      ensures ok.Got? ==> ok.value == (key in broker && broker[key] == value)
      ensures faults == old(faults) + if ok.Got? then 0 else 1
    {
      Interference();
      ok := *;
      if ok.Got? { ok := Got(key in broker && broker[key] == value); } else { faults := faults + 1; }
    }

    /** Removing a file: allowed once the broker holds its credential. */
    method Unlink(p: Path) returns (ok: bool)
      requires Valid() && p in files && names.Eligible(p, files[p]) && names.Key(p) in broker
      modifies this`files, this`trace, this`faults
      ensures Valid() && Continues()
      ensures files == if ok then old(files) - {p} else old(files)
      ensures faults == old(faults) + if ok then 0 else 1
    {
      var fails := MayFail();
      if fails { return false; }
      StepKept(names, trace, World(files - {p}, broker), {p});
      files := files - {p};
      trace := trace + [Now()];
      ok := true;
    }

    /** Removing a metadata file that may not be there. */
    method UnlinkMeta(meta: Path) returns (ok: bool)
      requires Valid()
      modifies this`metas, this`faults
      ensures Valid()
      ensures metas == if ok then old(metas) - {meta} else old(metas)
      ensures faults == old(faults) + if ok then 0 else 1
    {
      if meta in metas {
        var fails := MayFail();
        if fails { return false; }
      }
      metas := metas - {meta};
      ok := true;
    }

    /** One legacy file: the body of the loop, with its exception handler; None when the run
        ends in an exception that it does not catch.  Where no call raises, a file fails only
        if the broker lacks its credential and does not take its value. */
    method MigrateOne(p: Path, meta: Path) returns (r: Option<Outcome>)
      requires Valid() && p in files && names.Eligible(p, files[p]) && p !in mine
      modifies this`files, this`metas, this`broker, this`trace, this`faults, this`mine
      ensures Valid() && Continues() && Grows(old(broker), broker)
      ensures files == old(files) || files == old(files) - {p}
      ensures metas == old(metas) || metas == old(metas) - {meta}
      ensures r.Some? ==> Told(names, p, old(files[p]), r.value, old(broker), Now())
      ensures faults >= old(faults) && old(mine) <= mine <= old(mine) + {p}
      ensures r == Some(Migrated) ==> p in mine
      ensures r == Some(Cleaned) || r == Some(Stale) ==> p !in mine
      ensures r.None? ==> faults > old(faults)
      ensures r == Some(Failed) && faults == old(faults) ==>
                !Storable(old(files[p]).Value()) && names.Key(p) !in old(broker)
    {
      hide Valid, AllKept, Names.Eligible, File.Value, Strip, Storable;
      KeyKnown(names, p, files[p]);
      ValueStripped(files[p]);
      var unreadable := MayFail();
      if unreadable { return Some(Failed); }
      var value, key := files[p].Value(), names.Key(p);
      var inserted := false;
      var state := SecretState(key, value);
      if !state.Got? { return if state.Caught? then Some(Failed) else None; }
      if state == Got(Missing) {
        var put := PutIfMissing(key, value, p);
        if !put.Got? { return if put.Caught? then Some(Failed) else None; }
        inserted := put.value;
        if inserted {
          var confirmed := ConfirmSecret(key, value);
          if confirmed.Uncaught? { return None; }
          if confirmed != Got(true) { return Some(Failed); }
          state := Got(Same);
        } else {
          state := SecretState(key, value);
          if state.Uncaught? { return None; }
          if state.Caught? || state == Got(Missing) { return Some(Failed); }
        }
      }
      var removed := Unlink(p);
      if !removed { return Some(Failed); }
      removed := UnlinkMeta(meta);
      if !removed { return Some(Failed); }
      r := Some(if inserted then Migrated else if state == Got(Same) then Cleaned else Stale);
    }

    /** Nothing left to do: no legacy credential, and no empty bot directory. */
    predicate Quiescent()
      reads this`files, this`metas, this`dirs
    {
      Settled(names, files, metas, dirs, dirs)
    }

    /** The metadata file beside a source: Python's Path.with_suffix(".meta"). */
    function MetaOf(p: Path): (m: Path)
      ensures m.0 == p.0
    {
      var dot := LastDot(p.1);
      (p.0, (if 0 < dot < |p.1| - 1 then p.1[..dot] else p.1) + ".meta")
    }

    /** The report counts the outcomes of all legacy files, and directories that could not be
        removed; without failures nothing is left to do, and a second run does nothing.  A
        run that ends in an exception has no report, and still loses nothing. */
    method Migrate() returns (report: Option<Report>, ghost outs: map<Path, Outcome>)
      requires Valid()
      modifies this`files, this`metas, this`dirs, this`broker, this`trace, this`faults, this`mine
      ensures Valid() && Continues() && Grows(old(broker), broker)
      ensures report.Some? ==>
                && outs.Keys == Sources(names, old(files), old(dirs))
                && Account(names, outs, old(Now()), Now(), {}, mine, faults == old(faults))
                && (exists undeleted: nat :: report.value == Report(0, 0, 0, 0).Plus(outs, undeleted)
                                             && (faults == old(faults) ==> undeleted == 0))
                && (report.value.failed == 0 ==> Quiescent())
      ensures faults >= old(faults) && (report.None? ==> faults > old(faults))
      ensures old(Quiescent()) ==> Untouched() && (report.None? || report.value == Report(0, 0, 0, 0))
    {
      hide Valid, Names.Eligible, Grows, Report.Plus, Sources, Account, Settled, OnlyIn, SameIn, Shrunk;
      var total := Report(0, 0, 0, 0);
      mine := {};
      outs := map[];
      ghost var undeleted: nat := 0;
      GrowsSame(broker);
      PlusMerge(total, map[], map[], 0, 0);
      SourcesNone(names, files);
      AccountNone(names, Now(), {});
      SettledOne(names, files, metas, dirs, "");
      var unlistable := MayFail();
      if unlistable { return None, outs; }
      var todo := dirs;
      SameSelf(todo, files);
      assert old(dirs) - todo == {};
      while todo != {}
        invariant todo <= dirs <= old(dirs)
        invariant Valid() && Continues() && Grows(old(broker), broker)
        invariant Shrunk(files, old(files))
        invariant SameIn(todo, files, old(files))
        invariant outs.Keys == Sources(names, old(files), old(dirs) - todo)
        invariant faults >= old(faults) && Account(names, outs, old(Now()), Now(), {}, mine, faults == old(faults))
        invariant total == Report(0, 0, 0, 0).Plus(outs, undeleted) && (faults == old(faults) ==> undeleted == 0)
        invariant total.failed == 0 ==> Settled(names, files, metas, dirs, old(dirs) - todo)
        invariant old(Quiescent()) ==> Untouched() && total == Report(0, 0, 0, 0)
        decreases todo
      {
        var dir :| dir in todo;
        ghost var past, todo0 := old(dirs) - todo, todo;
        SourcesAdd(names, old(files), files, past, todo, dir);
        todo := todo - {dir};
        assert old(dirs) - todo == past + {dir};
        if dir in names.bots {
          ghost var w, mine0, faults0 := Now(), mine, faults;
          ghost var metas0, dirs0 := metas, dirs;
          NoneOfDir(names, outs, old(Now()), w, past, dir, mine, faults == old(faults));
          if old(Quiescent()) { SettledWithin(names, files, metas, dirs, dirs, {dir}); }
          ghost var more: map<Path, Outcome>, left: nat;
          report, more, left := MigrateDir(dir, total);
          if report.None? { GrowsOn(old(broker), w.broker, broker); return None, outs; }
          total := report.value;
          SameMore(dir, old(files), w.files, metas0, files, metas, todo0);
          AccountMerge(names, outs, more, old(Now()), w, Now(), {}, mine0, mine, faults0 == old(faults), faults == faults0);
          PlusMerge(Report(0, 0, 0, 0), outs, more, undeleted, left);
          if total.failed == 0 { SettledMore(names, w.files, metas0, dirs0, files, metas, dirs, past, dir); }
          outs, undeleted := outs + more, undeleted + left;
        } else {
          OnlySame(dir, files, metas);
          SameMore(dir, old(files), files, metas, files, metas, todo0);
          if total.failed == 0 { SettledSkip(names, files, metas, dirs, past, dir); }
        }
      }
      assert old(dirs) - todo == old(dirs);
      if total.failed == 0 { SettledWithin(names, files, metas, dirs, old(dirs), dirs); }
      report := Some(total);
    }

    twostate predicate Untouched()
      reads this`files, this`metas, this`dirs, this`trace
    {
      files == old(files) && metas == old(metas) && dirs == old(dirs) && trace == old(trace)
    }

    method MigrateDir(dir: string, before: Report)
      returns (report: Option<Report>, ghost outs: map<Path, Outcome>, ghost undeleted: nat)
      requires Valid() && dir in dirs && dir in names.bots && forall q :: q in mine ==> q.0 != dir
      modifies this`files, this`metas, this`dirs, this`broker, this`trace, this`faults, this`mine
      ensures Valid() && Continues() && Grows(old(broker), broker)
      ensures dirs == old(dirs) || dirs == old(dirs) - {dir}
      ensures OnlyIn(dir, old(files), old(metas), files, metas)
      ensures report.Some? ==>
                && outs.Keys == Sources(names, old(files), {dir})
                && Account(names, outs, old(Now()), Now(), old(mine), mine, faults == old(faults))
                && (faults == old(faults) ==> undeleted == 0)
                && report.value == before.Plus(outs, undeleted) && report.value.failed >= before.failed
                && (report.value.failed == 0 ==> Settled(names, files, metas, dirs, {dir}))
      ensures faults >= old(faults) && (report.None? ==> faults > old(faults))
      ensures old(Settled(names, files, metas, dirs, {dir})) ==> Untouched() && (report.None? || report.value == before)
    {
      hide AllKept, Names.Eligible, MetaOf, Grows, Report.Plus, Sources, OnlyIn, Account, Settled, NoneLeft, Vacant;
      undeleted := 0;
      ghost var w := Now();
      SettledOne(names, files, metas, dirs, dir);
      report, outs := MigrateSources(dir, before);
      if report.None? { return; }
      var removed := RemoveIfEmpty(dir);
      if removed.Uncaught? { return None, outs, 0; }
      SettledOne(names, files, metas, dirs, dir);
      if faults != old(faults) { AccountFault(names, outs, w, Now(), old(mine), mine); }
      if removed.Caught? {
        PlusMerge(before, outs, map[], 0, 1);
        OneMore(report.value);
        undeleted := 1;
        report := Some(report.value.(failed := report.value.failed + 1));
        assert outs + map[] == outs;
      }
    }

    /** The inner loop, over the entries of one directory. */
    method MigrateSources(dir: string, before: Report) returns (report: Option<Report>, ghost outs: map<Path, Outcome>)
      requires Valid() && dir in names.bots && forall q :: q in mine ==> q.0 != dir
      modifies this`files, this`metas, this`broker, this`trace, this`faults, this`mine
      ensures Valid() && Continues() && Grows(old(broker), broker)
      ensures OnlyIn(dir, old(files), old(metas), files, metas)
      ensures report.Some? ==>
                && outs.Keys == Sources(names, old(files), {dir})
                && Account(names, outs, old(Now()), Now(), old(mine), mine, faults == old(faults))
                && report.value == before.Plus(outs, 0) && report.value.failed >= before.failed
                && (report.value.failed == 0 ==> NoneLeft(names, files, dir, {}))
      ensures faults >= old(faults) && (report.None? ==> faults > old(faults))
      ensures old(NoneLeft(names, files, dir, {})) ==>
                files == old(files) && metas == old(metas) && trace == old(trace) && (report.None? || report.value == before)
    {
      hide Valid, Names.Eligible, MetaOf, Grows, Report.Plus, Sources, OnlyIn, Shrunk, NoneLeft, Entries, Account;
      ghost var w0, metas0, mine0 := Now(), metas, mine;
      GrowsSame(broker);
      OnlySame(dir, files, metas);
      PlusMerge(before, map[], map[], 0, 0);
      AccountNone(names, Now(), mine);
      outs := map[];
      var total := before;
      var unlistable := MayFail();
      if unlistable { return None, outs; }
      var sources := Entries(files, dir);
      SourcesAll(names, files, dir);
      LeftAtFirst(names, files, dir);
      while sources != {}
        invariant sources <= Entries(w0.files, dir)
        invariant sources <= files.Keys
        invariant Valid() && Continues() && Grows(old(broker), broker)
        invariant OnlyIn(dir, w0.files, metas0, files, metas)
        invariant outs.Keys == Sources(names, old(files), {dir}) - sources
        invariant faults >= old(faults) && Account(names, outs, w0, Now(), mine0, mine, faults == old(faults))
        invariant total == before.Plus(outs, 0) && total.failed >= before.failed
        invariant total.failed == 0 ==> NoneLeft(names, files, dir, sources)
        invariant NoneLeft(names, w0.files, dir, {}) ==> files == old(files) && metas == old(metas) && trace == old(trace) && total == before
        decreases sources
      {
        var p :| p in sources;
        EntryOf(w0.files, dir, p);
        LeftAtLast(names, w0.files, dir);
        OnlyAt(dir, w0.files, metas0, files, metas, p);
        SourcesStep(names, w0.files, dir, sources, p);
        ghost var todo := sources;
        sources := sources - {p};
        assert sources + {p} == todo;
        if names.Eligible(p, files[p]) {
          ghost var w, metas1, mine1, faults1 := Now(), metas, mine, faults;
          ghost var more: map<Path, Outcome>;
          NotYetMine(names, outs, w0, w, mine0, mine, faults == old(faults), p);
          report, more := MigrateSource(p, total);
          OnlyHere(w.files, metas1, files, metas, p, MetaOf(p));
          OnlyThen(dir, w0.files, metas0, w.files, metas1, files, metas);
          if report.None? { GrowsOn(w0.broker, w.broker, broker); return None, outs; }
          total := report.value;
          AccountMerge(names, outs, more, w0, w, Now(), mine0, mine1, mine, faults1 == old(faults), faults == faults1);
          PlusMerge(before, outs, more, 0, 0);
          outs := outs + more;
          LeftStep(names, w.files, files, dir, sources, p);
        } else {
          LeftStep(names, files, files, dir, sources, p);
        }
      }
      report := Some(total);
    }

    /** One source, and its place in the report. */
    method MigrateSource(p: Path, before: Report) returns (report: Option<Report>, ghost outs: map<Path, Outcome>)
      requires Valid() && p in files && names.Eligible(p, files[p]) && p !in mine
      modifies this`files, this`metas, this`broker, this`trace, this`faults, this`mine
      ensures Valid() && Continues() && Grows(old(broker), broker)
      ensures files == old(files) || files == old(files) - {p}
      ensures metas == old(metas) || metas == old(metas) - {MetaOf(p)}
      ensures faults >= old(faults) && (report.None? ==> faults > old(faults))
      ensures report.Some? ==>
                && outs.Keys == {p} && Account(names, outs, old(Now()), Now(), old(mine), mine, faults == old(faults))
                && report.value == before.Plus(outs, 0) && report.value.failed >= before.failed
                && (report.value.failed == 0 ==> p !in files)
    {
      hide AllKept, Names.Eligible, MetaOf, Grows, Account, Report.Plus;
      KeyKnown(names, p, files[p]);
      ghost var w := Now();
      outs := map[];
      var r := MigrateOne(p, MetaOf(p));
      if r.None? { return None, outs; }
      outs := map[p := r.value];
      AccountOne(names, p, r.value, w, Now(), old(mine), mine, faults == old(faults));
      PlusOne(before, p, r.value);
      var total := before;
      match r.value {
        case Migrated => total := before.(migrated := before.migrated + 1);
        case Cleaned => total := before.(cleanedExisting := before.cleanedExisting + 1);
        case Stale => total := before.(staleRemoved := before.staleRemoved + 1);
        case Failed => total := before.(failed := before.failed + 1);
      }
      report := Some(total);
    }

    /** Removing a bot directory if it has become empty.  That it cannot be removed is counted;
        that it cannot be listed ends the run. */
    method RemoveIfEmpty(dir: string) returns (removed: Call<bool>)
      requires Valid() && dir in dirs
      modifies this`dirs, this`faults
      ensures Valid() && faults == old(faults) + if removed.Got? then 0 else 1
      ensures dirs == if removed == Got(true) then old(dirs) - {dir} else old(dirs)
      ensures removed.Got? ==> removed.value == old(Vacant(files, metas, dir))
      ensures removed.Caught? ==> old(Vacant(files, metas, dir))
    {
      var unlistable := MayFail();
      if unlistable { return Uncaught; }
      if Vacant(files, metas, dir) {
        var fails := MayFail();
        if fails { return Caught; }
        dirs := dirs - {dir};
        return Got(true);
      }
      removed := Got(false);
    }
  }
}
