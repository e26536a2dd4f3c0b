/**
 Where a bead type's lifecycle configuration comes from: a prioritised search through the
 org database, the project's YAML file and built-in tables, with the YAML file cached.
 */
module Lifecycle {
  import opened Wrappers

  type State = string
  type BeadType = string
  type Path = string

  const DEFAULT: BeadType := "default"

  function GetOr<T>(o: Option<T>, default: T): T {
    if o.Some? then o.value else default
  }

  /** A configuration as written down: every key may be missing. */
  datatype Declared = Declared(states: Option<seq<State>>, terminal: Option<seq<State>>,
                               initial: Option<State>, transitions: Option<map<State, seq<State>>>)
  {
    /** The empty dictionary, which the search treats as no configuration. */
    predicate IsEmpty() {
      states.None? && terminal.None? && initial.None? && transitions.None?
    }
  }

  datatype Config = Config(states: seq<State>, terminal: seq<State>, initial: State,
                           transitions: map<State, seq<State>>)

  datatype LookupError = EmptyStateList | BadYaml

  /**
   Fill in the missing keys. The first declared state is evaluated even when an initial
   state is given, so an empty state list raises.
   */
  function Resolve(d: Declared): Result<Config, LookupError> {
    var candidates := GetOr(d.states, ["open"]);
    if candidates == [] then Err(EmptyStateList)
    else Ok(Config(GetOr(d.states, []), GetOr(d.terminal, []), GetOr(d.initial, candidates[0]),
                   GetOr(d.transitions, map[])))
  }

  /** A database row: JSON that cannot be decoded counts as no row. */
  datatype Row = Unreadable | Stored(config: Declared)

  type Yaml = map<BeadType, Declared>

  /** The YAML file: absent or unreadable, readable but not as the expected YAML, or in order. */
  datatype YamlFile = Missing | Malformed | Readable(types: Yaml)

  function Read(file: YamlFile): Result<Yaml, LookupError> {
    match file
    case Missing => Ok(map[])
    case Malformed => Err(BadYaml)
    case Readable(types) => Ok(types)
  }

  type Databases = map<Path, map<BeadType, Row>>

  function FromDatabase(dbs: Databases, db: Option<Path>, t: BeadType): Option<Declared> {
    if db.Some? && db.value in dbs && t in dbs[db.value] && dbs[db.value][t].Stored?
    then Some(dbs[db.value][t].config)
    else None
  }

  predicate Usable(d: Option<Declared>) {
    d.Some? && !d.value.IsEmpty()
  }

  function BuiltIn(t: BeadType): Config {
    if t == "task" then
      Config(["investigation", "planning", "implementation", "review", "done"],
             ["done", "rejected", "abandoned"], "investigation",
             map["investigation" := ["planning", "rejected", "abandoned"],
                 "planning" := ["implementation", "investigation", "rejected", "abandoned"],
                 "implementation" := ["review", "planning", "rejected", "abandoned"],
                 "review" := ["done", "implementation", "rejected", "abandoned"],
                 "done" := [], "rejected" := [], "abandoned" := []])
    else if t == "bug" then
      Config(["triage", "investigation", "fixing", "review", "done"],
             ["done", "wontfix", "duplicate"], "triage",
             map["triage" := ["investigation", "wontfix", "duplicate"],
                 "investigation" := ["fixing", "triage", "wontfix", "duplicate"],
                 "fixing" := ["review", "investigation", "wontfix"],
                 "review" := ["done", "fixing", "wontfix"],
                 "done" := [], "wontfix" := [], "duplicate" := []])
    else if t == "feature" then
      Config(["discovery", "design", "implementation", "review", "done"],
             ["done", "rejected", "deferred"], "discovery",
             map["discovery" := ["design", "rejected", "deferred"],
                 "design" := ["implementation", "discovery", "rejected", "deferred"],
                 "implementation" := ["review", "design", "rejected", "deferred"],
                 "review" := ["done", "implementation", "rejected", "deferred"],
                 "done" := [], "rejected" := [], "deferred" := []])
    else
      Config(["open", "in_progress", "done"], ["done", "closed"], "open",
             map["open" := ["in_progress", "done", "closed"],
                 "in_progress" := ["done", "open", "closed"],
                 "done" := [], "closed" := []])
  }

  /** The priority search, given what reading the YAML file yields. */
  function Search(dbs: Databases, db: Option<Path>, read: Result<Yaml, LookupError>, t: BeadType):
    Result<Config, LookupError>
  {
    if Usable(FromDatabase(dbs, db, t)) then Resolve(FromDatabase(dbs, db, t).value)
    else if read.Err? then Err(read.error)
    else if t in read.value then Resolve(read.value[t])
    else if DEFAULT in read.value then Resolve(read.value[DEFAULT])
    else if Usable(FromDatabase(dbs, db, DEFAULT)) then Resolve(FromDatabase(dbs, db, DEFAULT).value)
    else Ok(BuiltIn(t))
  }

  // The module's state and its operations

  datatype World = World(cache: Option<Yaml>, db: Option<Path>, file: YamlFile, dbs: Databases) {

    /** The YAML configuration a lookup sees. */
    function SeenYaml(): Result<Yaml, LookupError> {
      if cache.Some? then Ok(cache.value) else Read(file)
    }

    /** A load that fails leaves the cache empty. */
    function Loaded(): World {
      if SeenYaml().Ok? then this.(cache := Some(SeenYaml().value)) else this
    }

    function Lookup(t: BeadType): Result<Config, LookupError> {
      Search(dbs, db, SeenYaml(), t)
    }

    /** The same lookup by a module that has cached nothing. */
    function Uncached(t: BeadType): Result<Config, LookupError> {
      Search(dbs, db, Read(file), t)
    }
  }

  /** How far a save to an existing database gets: the write fails, closing fails after the commit, or all is well. */
  datatype SaveOutcome = WriteFails | CloseFails | Completes

  datatype Op = Lookup(t: BeadType) | Save(db: Path, t: BeadType, config: Declared, outcome: SaveOutcome)
              | SetPath(db: Path) | Clear | EditYaml(file: YamlFile)

  /** Only an existing database can be opened, and a save never creates one. */
  predicate Writes(op: Op, dbs: Databases) {
    op.Save? && op.db in dbs && !op.outcome.WriteFails?
  }

  /** The operations that get as far as clearing the cache. */
  predicate ReachesClear(op: Op, dbs: Databases) {
    op.Clear? || op.SetPath? || (Writes(op, dbs) && op.outcome.Completes?)
  }

  function Apply(w: World, op: Op): World {
    match op
    case Lookup(t) => if Usable(FromDatabase(w.dbs, w.db, t)) then w else w.Loaded()
    case Save(db, t, config, outcome) =>
      if !Writes(op, w.dbs) then w
      else w.(dbs := w.dbs[db := w.dbs[db][t := Stored(config)]],
              cache := if outcome.Completes? then None else w.cache)
    case SetPath(db) => w.(cache := None, db := Some(db))
    case Clear => w.(cache := None)
    case EditYaml(file) => w.(file := file)
  }

  function Run(w: World, ops: seq<Op>): World {
    if ops == [] then w else Apply(Run(w, ops[..|ops| - 1]), ops[|ops| - 1])
  }

  class LifecycleModule {
    var cache: Option<Yaml>
    var db: Option<Path>
    var file: YamlFile
    var dbs: Databases

    ghost function View(): World
      reads this
    {
      World(cache, db, file, dbs)
    }

    constructor (file: YamlFile, dbs: Databases)
      ensures View() == World(None, None, file, dbs)
    {
      this.cache, this.db, this.file, this.dbs := None, None, file, dbs;
    }

    method LoadLifecycleConfig() returns (loaded: Result<Yaml, LookupError>)
      modifies this`cache
      ensures loaded == old(View()).SeenYaml() && View() == old(View()).Loaded()
    {
      if cache.None? {
        match file
        case Missing => cache := Some(map[]);
        case Malformed => return Err(BadYaml);
        case Readable(types) => cache := Some(types);
      }
      loaded := Ok(cache.value);
    }

    method LoadFromDatabase(t: BeadType) returns (config: Option<Declared>)
      ensures config == FromDatabase(dbs, db, t)
    {
      if db.None? || db.value !in dbs || t !in dbs[db.value] {
        return None;
      }
      match dbs[db.value][t]
      case Unreadable => config := None;
      case Stored(c) => config := Some(c);
    }

    method GetLifecycleForType(t: BeadType) returns (r: Result<Config, LookupError>)
      modifies this`cache
      ensures r == old(View()).Lookup(t)
      ensures View() == Apply(old(View()), Op.Lookup(t))
    {
      var dbConfig := LoadFromDatabase(t);
      if dbConfig.Some? && !dbConfig.value.IsEmpty() {
        return Resolve(dbConfig.value);
      }
      var loaded := LoadLifecycleConfig();
      if loaded.Err? {
        return Err(loaded.error);
      }
      var yamlConfig := loaded.value;
      if t in yamlConfig {
        return Resolve(yamlConfig[t]);
      }
      if DEFAULT in yamlConfig {
        return Resolve(yamlConfig[DEFAULT]);
      }
      var dbDefault := LoadFromDatabase(DEFAULT);
      if dbDefault.Some? && !dbDefault.value.IsEmpty() {
        return Resolve(dbDefault.value);
      }
      r := Ok(BuiltIn(t));
    }

    method ClearLifecycleCache()
      modifies this`cache
      ensures View() == Apply(old(View()), Clear)
    {
      cache := None;
    }

    method SetDatabasePath(path: Path)
      modifies this`db, this`cache
      ensures View() == Apply(old(View()), SetPath(path))
    {
      db := Some(path);
      ClearLifecycleCache();
    }

    method SaveLifecycleConfig(path: Path, t: BeadType, config: Declared, outcome: SaveOutcome) returns (ok: bool)
      modifies this`dbs, this`cache
      ensures View() == Apply(old(View()), Save(path, t, config, outcome))
      ensures ok <==> ReachesClear(Save(path, t, config, outcome), old(dbs))
    {
      if path !in dbs || outcome.WriteFails? {
        return false;
      }
      dbs := dbs[path := dbs[path][t := Stored(config)]];
      if outcome.CloseFails? {
        return false;
      }
      ClearLifecycleCache();
      ok := true;
    }
  }

  // When the cache shows

  ghost predicate Fresh(w: World) {
    w.SeenYaml() == Read(w.file)
  }

  /** Every edit of the YAML file has been followed by an operation that clears the cache. */
  predicate Settled(ops: seq<Op>, dbs: Databases) {
    if ops == [] then true
    else
      var last := ops[|ops| - 1];
      ReachesClear(last, dbs) || (!last.EditYaml? && Settled(ops[..|ops| - 1], dbs))
  }

  /** No operation adds or removes a database, so whether a save clears is known beforehand. */
  lemma {:induction false} DatabasesStay(w: World, ops: seq<Op>)
    ensures Run(w, ops).dbs.Keys == w.dbs.Keys
  {
    if ops != [] {
      DatabasesStay(w, ops[..|ops| - 1]);
    }
  }

  lemma {:induction false} SettledIsFresh(w: World, ops: seq<Op>)
    requires Fresh(w) && Settled(ops, w.dbs)
    ensures Fresh(Run(w, ops))
  {
    if ops != [] {
      var last := ops[|ops| - 1];
      DatabasesStay(w, ops[..|ops| - 1]);
      if !ReachesClear(last, w.dbs) {
        SettledIsFresh(w, ops[..|ops| - 1]);
      }
    }
  }

  /**
   The cached lookup is the uncached search: after any interleaving of lookups, saves that
   succeed or fail, path changes, clears and YAML edits in which the last edit has been
   followed by an operation that clears the cache.
   */
  lemma {:induction false} CacheIsInvisible(w: World, ops: seq<Op>, t: BeadType)
    requires Fresh(w) && Settled(ops, w.dbs)
    ensures Run(w, ops).Lookup(t) == Run(w, ops).Uncached(t)
  {
    SettledIsFresh(w, ops);
  }

  lemma {:induction false} RunsCompose(w: World, first: seq<Op>, second: seq<Op>)
    ensures Run(w, first + second) == Run(Run(w, first), second)
  {
    var ops := first + second;
    if second == [] {
      assert ops == first;
    } else {
      assert ops[..|ops| - 1] == first + second[..|second| - 1];
      RunsCompose(w, first, second[..|second| - 1]);
    }
  }

  predicate SomeReachesClear(ops: seq<Op>, dbs: Databases) {
    exists op :: op in ops && ReachesClear(op, dbs)
  }

  /** A cache that was full before an edit stays as it was until an operation clears it. */
  lemma {:induction false} CacheStays(w: World, file: YamlFile, later: seq<Op>)
    requires w.cache.Some? && !SomeReachesClear(later, w.dbs)
    ensures Run(w.(file := file), later).cache == w.cache
  {
    if later != [] {
      var before := later[..|later| - 1];
      CacheStays(w, file, before);
      DatabasesStay(w.(file := file), before);
      assert later[|later| - 1] in later;
    }
  }

  lemma {:induction false} ClearFreshens(w: World, later: seq<Op>)
    requires forall op :: op in later ==> !op.EditYaml?
    requires w.cache.None? || SomeReachesClear(later, w.dbs)
    ensures Fresh(Run(w, later))
  {
    if later != [] {
      var before, last := later[..|later| - 1], later[|later| - 1];
      DatabasesStay(w, before);
      if !ReachesClear(last, w.dbs) {
        if w.cache.Some? {
          var op :| op in later && ReachesClear(op, w.dbs);
          assert op in before;
        }
        ClearFreshens(w, before);
      }
    }
  }

  /** What the database holds does not depend on the YAML file. */
  lemma {:induction false} EditsMissDatabase(w: World, file: YamlFile, later: seq<Op>)
    ensures Run(w.(file := file), later).dbs == Run(w, later).dbs
    ensures Run(w.(file := file), later).db == Run(w, later).db
  {
    if later != [] {
      EditsMissDatabase(w, file, later[..|later| - 1]);
    }
  }

  lemma {:induction false} FileStays(w: World, later: seq<Op>)
    requires forall op :: op in later ==> !op.EditYaml?
    ensures Run(w, later).file == w.file
  {
    if later != [] {
      FileStays(w, later[..|later| - 1]);
      assert later[|later| - 1] in later;
    }
  }

  lemma {:induction false} EditSplits(w: World, before: seq<Op>, file: YamlFile, later: seq<Op>)
    ensures Run(w, before + [EditYaml(file)] + later) == Run(Run(w, before).(file := file), later)
  {
    var edited := before + [EditYaml(file)];
    RunsCompose(w, edited, later);
    assert edited[..|edited| - 1] == before;
  }

  /**
   Exactly when the last edit of the YAML file cannot be missed: whatever the new contents,
   a lookup after it is the uncached one iff the database settles the type, or nothing was
   cached at the time of the edit, or some later operation got as far as clearing the cache.
   */
  lemma {:induction false} EditIsSeenExactly(w: World, before: seq<Op>, later: seq<Op>, t: BeadType)
    requires forall op :: op in later ==> !op.EditYaml?
    ensures (forall file: YamlFile ::
               var after := Run(w, before + [EditYaml(file)] + later);
               after.Lookup(t) == after.Uncached(t)) <==>
            var prior := Run(w, before);
            || Usable(FromDatabase(Run(prior, later).dbs, Run(prior, later).db, t))
            || prior.cache.None?
            || SomeReachesClear(later, w.dbs)
  {
    var prior := Run(w, before);
    DatabasesStay(w, before);
    assert SomeReachesClear(later, w.dbs) <==> SomeReachesClear(later, prior.dbs);
    forall file: YamlFile
      ensures Run(w, before + [EditYaml(file)] + later) == Run(prior.(file := file), later)
      ensures var after := Run(prior.(file := file), later);
              after.file == file && after.db == Run(prior, later).db && after.dbs == Run(prior, later).dbs
    {
      EditSplits(w, before, file, later);
      EditsMissDatabase(prior, file, later);
      FileStays(prior.(file := file), later);
    }
    if prior.cache.None? || SomeReachesClear(later, prior.dbs) {
      forall file: YamlFile
        ensures var after := Run(prior.(file := file), later);
                after.Lookup(t) == after.Uncached(t)
      {
        ClearFreshens(prior.(file := file), later);
      }
    } else {
      CacheStays(prior, Malformed, later);
      var after := Run(prior.(file := Malformed), later);
      assert after == Run(w, before + [EditYaml(Malformed)] + later);
    }
  }

  lemma EditedFileIsSeen(w: World, before: seq<Op>, file: YamlFile, later: seq<Op>)
    requires forall op :: op in later ==> !op.EditYaml?
    requires Run(w, before).cache.None? || SomeReachesClear(later, w.dbs)
    ensures Run(w, before + [EditYaml(file)] + later).SeenYaml() == Read(file)
  {
    var prior := Run(w, before);
    DatabasesStay(w, before);
    assert SomeReachesClear(later, w.dbs) <==> SomeReachesClear(later, prior.dbs);
    EditSplits(w, before, file, later);
    FileStays(prior.(file := file), later);
    ClearFreshens(prior.(file := file), later);
  }

  /**
   What a lookup finds after an edit of the file that is seen, as long as no usable row for the
   type is in the current database: the file's entry for the type, whatever the defaults. A
   type that neither names gets the file's default, else the database's, else the built-in
   table. A missing file names nothing, and a malformed one raises.
   */
  lemma YamlEntryIsSeen(w: World, before: seq<Op>, file: YamlFile, later: seq<Op>, t: BeadType)
    requires forall op :: op in later ==> !op.EditYaml?
    requires Run(w, before).cache.None? || SomeReachesClear(later, w.dbs)
    ensures var after := Run(w, before + [EditYaml(file)] + later);
            var ofDefault := FromDatabase(after.dbs, after.db, "default");
            var named := file.Readable? && t in file.types;
            var defaulted := file.Readable? && "default" in file.types;
            !Usable(FromDatabase(after.dbs, after.db, t)) ==>
              && (named ==> after.Lookup(t) == Resolve(file.types[t]))
              && (!named && defaulted ==> after.Lookup(t) == Resolve(file.types["default"]))
              && (!named && !defaulted && !file.Malformed? && Usable(ofDefault) ==>
                    after.Lookup(t) == Resolve(ofDefault.value))
              && (!named && !defaulted && !file.Malformed? && !Usable(ofDefault) ==>
                    after.Lookup(t) == Ok(BuiltIn(t)))
              && (file.Malformed? ==> after.Lookup(t) == Err(BadYaml))
  {
    EditedFileIsSeen(w, before, file, later);
  }

  /** Without the clear a lookup goes on reading the file as it was, whatever else is looked up. */
  lemma {:induction false} StaleUntilCleared(w: World, file: YamlFile, lookups: seq<Op>, t: BeadType)
    requires w.cache.Some? && forall op :: op in lookups ==> op.Lookup?
    ensures Run(Apply(w, EditYaml(file)), lookups).Lookup(t) == w.Lookup(t)
    ensures Run(Apply(w, EditYaml(file)), lookups) == w.(file := file)
  {
    if lookups != [] {
      StaleUntilCleared(w, file, lookups[..|lookups| - 1], t);
    }
  }

  /** A save to a database that is not there raises and leaves a stale cache in place. */
  lemma {:induction false} FailedSaveKeepsCache(w: World, file: YamlFile, db: Path, t: BeadType, config: Declared,
                                                outcome: SaveOutcome)
    requires db !in w.dbs || outcome.WriteFails?
    ensures Run(w, [EditYaml(file), Save(db, t, config, outcome)]) == w.(file := file)
  {
    var ops := [EditYaml(file), Save(db, t, config, outcome)];
    assert ops[..1] == [] + [EditYaml(file)] + [];
    EditSplits(w, [], file, []);
  }

  // What a save promises

  /** Operations that leave the saved row for `t` in `db` the one looked up. */
  predicate Leaves(op: Op, dbs: Databases, db: Path, t: BeadType) {
    !(Writes(op, dbs) && op.db == db && op.t == t) && !(op.SetPath? && op.db != db)
  }

  lemma {:induction false} SavedRowStays(w: World, save: Op, ops: seq<Op>)
    requires Writes(save, w.dbs) && w.db == Some(save.db)
    requires forall op :: op in ops ==> Leaves(op, w.dbs, save.db, save.t)
    ensures var after := Run(Apply(w, save), ops);
            after.db == Some(save.db) && FromDatabase(after.dbs, after.db, save.t) == Some(save.config)
  {
    if ops != [] {
      SavedRowStays(w, save, ops[..|ops| - 1]);
      DatabasesStay(Apply(w, save), ops[..|ops| - 1]);
      assert ops[|ops| - 1] in ops;
    }
  }

  /**
   A configuration written to the current database is what every later lookup of its type
   resolves, stale cache, unreadable YAML file and failed saves included, until that row or
   the database is replaced.
   */
  lemma SavedIsSeen(w: World, save: Op, ops: seq<Op>)
    requires Writes(save, w.dbs) && w.db == Some(save.db) && !save.config.IsEmpty()
    requires forall op :: op in ops ==> Leaves(op, w.dbs, save.db, save.t)
    ensures Run(Apply(w, save), ops).Lookup(save.t) == Resolve(save.config)
  {
    SavedRowStays(w, save, ops);
  }

  /** A row in which nothing is declared counts as no row at all. */
  lemma EmptyRowIsIgnored(w: World, db: Path, t: BeadType, u: BeadType)
    requires w.db == Some(db) && db in w.dbs
    ensures var empty := Declared(None, None, None, None);
            Apply(w, Save(db, t, empty, Completes)).Lookup(u) ==
            w.(cache := None, dbs := w.dbs[db := w.dbs[db] - {t}]).Lookup(u)
  {
  }

  /** After a switch to another database its rows are the ones looked up. */
  lemma PathSwitches(w: World, db: Path, t: BeadType)
    ensures var after := Apply(w, SetPath(db));
            db in w.dbs && t in w.dbs[db] && w.dbs[db][t].Stored? && !w.dbs[db][t].config.IsEmpty() ==>
              after.Lookup(t) == Resolve(w.dbs[db][t].config)
  {
  }

  /** In particular its states, terminal states, moves and initial state are those declared, key by key. */
  lemma SavedIsUsed(w: World, save: Op, ops: seq<Op>)
    requires Writes(save, w.dbs) && w.db == Some(save.db)
    requires || save.config.states.Some? || save.config.terminal.Some?
             || save.config.initial.Some? || save.config.transitions.Some?
    requires forall op :: op in ops ==> Leaves(op, w.dbs, save.db, save.t)
    ensures var r, d := Run(Apply(w, save), ops).Lookup(save.t), save.config;
            && (d.states == Some([]) ==> r == Err(EmptyStateList))
            && (d.states != Some([]) ==>
                  && r.Ok?
                  && (d.states.Some? ==> r.value.states == d.states.value)
                  && (d.states.None? ==> r.value.states == [])
                  && (d.terminal.Some? ==> r.value.terminal == d.terminal.value)
                  && (d.terminal.None? ==> r.value.terminal == [])
                  && (d.transitions.Some? ==> r.value.transitions == d.transitions.value)
                  && (d.transitions.None? ==> r.value.transitions == map[])
                  && (d.initial.Some? ==> r.value.initial == d.initial.value)
                  && (d.initial.None? && d.states.Some? ==> r.value.initial == d.states.value[0])
                  && (d.initial.None? && d.states.None? ==> r.value.initial == "open"))
  {
    SavedIsSeen(w, save, ops);
  }

  /**
   The database is not always the highest priority: an org-specific default row is consulted
   only if the YAML file has no default, and then exactly for the types neither source names.
   */
  lemma DefaultRowCounts(w: World, config: Declared, db: Path, t: BeadType)
    requires w.db == Some(db) && db in w.dbs && t != DEFAULT && !config.IsEmpty()
    ensures Apply(w, Save(db, DEFAULT, config, Completes)).Lookup(t) ==
            if && Read(w.file).Ok? && DEFAULT !in Read(w.file).value && t !in Read(w.file).value
               && !Usable(FromDatabase(w.dbs, w.db, t))
            then Resolve(config)
            else w.Uncached(t)
  {
  }

  /** So a default in the YAML file beats the row just saved as the org's own default. */
  lemma YamlDefaultBeatsSavedDefault(t: BeadType)
    requires t != DEFAULT
    ensures var inYaml := Declared(Some(["todo"]), None, None, None);
            var inDatabase := Declared(Some(["open"]), None, None, None);
            var w := World(None, Some("quinn.db"), Readable(map[DEFAULT := inYaml]), map["quinn.db" := map[]]);
            var after := Apply(w, Save("quinn.db", DEFAULT, inDatabase, Completes));
            after.Lookup(t) == Resolve(inYaml) && after.Lookup(t) != Resolve(inDatabase)
  {
    var inYaml := Declared(Some(["todo"]), None, None, None);
    var inDatabase := Declared(Some(["open"]), None, None, None);
    assert Resolve(inYaml).value.initial[0] == 't' && Resolve(inDatabase).value.initial[0] == 'o';
  }
}
