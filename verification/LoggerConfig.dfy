/** The logger's configuration registry and the sparse index built from it (common/source/easylogging.cc,
    common/include/easylogging.h). */
module LoggerConfig {

  import opened Wrappers

  datatype Level = Global | Trace | Debug | Fatal | Error | Warning | Verbose | Info

  datatype ConfigurationType =
    | Enabled | ToFile | ToStandardOutput | Format | Filename
    | SubsecondPrecision | PerformanceTracking | MaxLogFileSize | LogFlushThreshold

  datatype Configuration = Configuration(level: Level, kind: ConfigurationType, value: string)

  const MIN_VALID: nat := 2
  const MAX_VALID: nat := 128

  function CastToInt(l: Level): nat {
    match l
    case Global => 1
    case Trace => 2
    case Debug => 4
    case Fatal => 8
    case Error => 16
    case Warning => 32
    case Verbose => 64
    case Info => 128
  }

  predicate IsLevelIndex(i: nat) {
    i in {2, 4, 8, 16, 32, 64, 128}
  }

  function CastFromInt(i: nat): (l: Level)
    requires IsLevelIndex(i)
    ensures CastToInt(l) == i && l != Global
  {
    if i == 2 then Trace else if i == 4 then Debug else if i == 8 then Fatal else if i == 16 then Error
    else if i == 32 then Warning else if i == 64 then Verbose else Info
  }

  // ---------------------------------------------------------------- the registry

  predicate Has(c: Configuration, l: Level, k: ConfigurationType) {
    c.level == l && c.kind == k
  }

  /** At most one entry for each level and type. */
  predicate Unique(list: seq<Configuration>) {
    forall i, j | 0 <= i < j < |list| :: !Has(list[i], list[j].level, list[j].kind)
  }

  /** The position of the first entry for a level and type. */
  function Find(list: seq<Configuration>, l: Level, k: ConfigurationType): (r: Option<nat>)
    ensures r.Some? ==> r.value < |list| && Has(list[r.value], l, k)
    ensures r.Some? ==> forall i | 0 <= i < r.value :: !Has(list[i], l, k)
    ensures r.None? ==> forall i | 0 <= i < |list| :: !Has(list[i], l, k)
  {
    if list == [] then None
    else if Has(list[0], l, k) then Some(0)
    else
      match Find(list[1..], l, k)
      case None => None
      case Some(i) => Some(i + 1)
  }

  function Value(list: seq<Configuration>, l: Level, k: ConfigurationType): Option<string> {
    match Find(list, l, k)
    case None => None
    case Some(i) => Some(list[i].value)
  }

  /** The level of the first entry of a type. */
  function FirstLevel(list: seq<Configuration>, k: ConfigurationType): Option<Level> {
    if list == [] then None
    else
      var before := FirstLevel(list[..|list| - 1], k);
      var c := list[|list| - 1];
      if before.None? && c.kind == k then Some(c.level) else before
  }

  /** Whether setting (`level`, `kind`) writes the entry (`l`, `k`): a Global write writes every level. */
  predicate Writes(level: Level, kind: ConfigurationType, l: Level, k: ConfigurationType) {
    k == kind && (l == level || level == Global)
  }

  /** One write: the entries it covers hold its value, the others what they held; entries keep their places
      and new ones come last. */
  ghost predicate Wrote(before: seq<Configuration>, after: seq<Configuration>,
                        covered: (Level, ConfigurationType) -> bool, value: string)
  {
    && Unique(after)
    && |before| <= |after|
    && (forall i | 0 <= i < |before| :: Has(after[i], before[i].level, before[i].kind))
    && (forall l, k :: Value(after, l, k) == if covered(l, k) then Some(value) else Value(before, l, k))
  }

  /** The entries covered once the levels below `lIndex` were written, Global or not. */
  function CoveredBelow(kind: ConfigurationType, includeGlobal: bool, lIndex: nat): (Level, ConfigurationType) -> bool {
    (l, k) => k == kind && (includeGlobal || (l != Global && CastToInt(l) < lIndex))
  }

  lemma NextLevel(before: seq<Configuration>, mid: seq<Configuration>, after: seq<Configuration>,
                  kind: ConfigurationType, includeGlobal: bool, lIndex: nat, value: string)
    requires IsLevelIndex(lIndex)
    requires Wrote(before, mid, CoveredBelow(kind, includeGlobal, lIndex), value)
    requires Wrote(mid, after, (l, k) => Writes(CastFromInt(lIndex), kind, l, k), value)
    ensures Wrote(before, after, CoveredBelow(kind, includeGlobal, lIndex * 2), value)
  {
    forall l
      ensures CastToInt(l) < lIndex * 2 <==> CastToInt(l) < lIndex || l == CastFromInt(lIndex)
    {
      match l
      case Global =>
      case _ =>
    }
  }

  /** Behind the last level all levels are covered. */
  lemma AllLevelsCovered(before: seq<Configuration>, after: seq<Configuration>, kind: ConfigurationType,
                         includeGlobal: bool, value: string)
    requires Wrote(before, after, CoveredBelow(kind, includeGlobal, 256), value)
    ensures Wrote(before, after, (l, k) => k == kind && (l != Global || includeGlobal), value)
  {
    forall l
      ensures CastToInt(l) < 256
    {
      match l
      case Global =>
      case _ =>
    }
  }

  lemma ValueAt(list: seq<Configuration>, i: nat)
    requires Unique(list) && i < |list|
    ensures Find(list, list[i].level, list[i].kind) == Some(i)
    ensures Value(list, list[i].level, list[i].kind) == Some(list[i].value)
  {
    var j := Find(list, list[i].level, list[i].kind);
    assert j.Some?;
    assert j.value == i;
  }

  lemma AppendWrites(list: seq<Configuration>, c: Configuration)
    requires Unique(list) && Find(list, c.level, c.kind).None?
    ensures Wrote(list, list + [c], (l, k) => l == c.level && k == c.kind, c.value)
  {
    var after := list + [c];
    forall l, k
      ensures Value(after, l, k) == if l == c.level && k == c.kind then Some(c.value) else Value(list, l, k)
    {
      ValueByFind(list, after, l, k);
      if l == c.level && k == c.kind {
        ValueAt(after, |list|);
      }
    }
  }

  /** An entry found in `list` is found at the same place when `after` starts with the same keys. */
  lemma ValueByFind(list: seq<Configuration>, after: seq<Configuration>, l: Level, k: ConfigurationType)
    requires |list| <= |after| && forall i | 0 <= i < |list| :: Has(after[i], list[i].level, list[i].kind)
    ensures Find(list, l, k).Some? ==> Find(after, l, k) == Find(list, l, k)
    ensures Find(list, l, k).None? && Find(after, l, k).Some? ==> Find(after, l, k).value >= |list|
  {
  }

  lemma UpdateWrites(list: seq<Configuration>, i: nat, value: string)
    requires Unique(list) && i < |list|
    ensures var after := list[i := list[i].(value := value)];
            Wrote(list, after, (l, k) => l == list[i].level && k == list[i].kind, value)
  {
    var after := list[i := list[i].(value := value)];
    forall l, k
      ensures Value(after, l, k) == if l == list[i].level && k == list[i].kind then Some(value) else Value(list, l, k)
    {
      ValueByFind(list, after, l, k);
    }
  }

  // ---------------------------------------------------------------- sequences of writes

  /** The value of entry (`l`, `k`) after `writes`, starting from `value`. */
  function LastWrite(value: Option<string>, writes: seq<Configuration>, l: Level, k: ConfigurationType): (r: Option<string>)
    ensures value.Some? ==> r.Some?
  {
    if writes == [] then value
    else
      var w := writes[|writes| - 1];
      if Writes(w.level, w.kind, l, k) then Some(w.value) else LastWrite(value, writes[..|writes| - 1], l, k)
  }

  /** The last write of a type for a level, or for Global, decides. */
  lemma LastWriteSnoc(value: Option<string>, writes: seq<Configuration>, w: Configuration, l: Level, k: ConfigurationType)
    ensures LastWrite(value, writes + [w], l, k)
         == if w.kind == k && (w.level == l || w.level == Global) then Some(w.value) else LastWrite(value, writes, l, k)
  {
    assert (writes + [w])[..|writes|] == writes;
  }

  /** The registry `before` became `after` by `writes`, one after the other: every entry holds the last value
      written to it, a Global write counting for all levels; the first entry of a type stays the first, and a
      type without entries gets the first written level as its first. */
  ghost predicate Written(before: seq<Configuration>, after: seq<Configuration>, writes: seq<Configuration>) {
    && Unique(after)
    && (forall l, k :: Value(after, l, k) == LastWrite(Value(before, l, k), writes, l, k))
    && (forall k :: FirstLevel(after, k) == if FirstLevel(before, k).Some? then FirstLevel(before, k) else FirstLevel(writes, k))
  }

  /** What one call of `Set` does. */
  ghost predicate WroteOne(before: seq<Configuration>, after: seq<Configuration>, w: Configuration) {
    && Wrote(before, after, (l, k) => Writes(w.level, w.kind, l, k), w.value)
    && (Find(before, w.level, w.kind).None? ==> |after| > |before| && Has(after[|before|], w.level, w.kind))
  }

  lemma {:induction false} FirstLevelNone(list: seq<Configuration>, k: ConfigurationType)
    ensures FirstLevel(list, k).None? <==> forall i | 0 <= i < |list| :: list[i].kind != k
  {
    if list != [] {
      FirstLevelNone(list[..|list| - 1], k);
    }
  }

  /** The first entry is decided by any part of the list that has one. */
  lemma {:induction false} FirstLevelOfPart(list: seq<Configuration>, n: nat, k: ConfigurationType)
    requires n <= |list|
    ensures FirstLevel(list[..n], k).Some? ==> FirstLevel(list, k) == FirstLevel(list[..n], k)
    decreases |list|
  {
    if n < |list| {
      assert list[..|list| - 1][..n] == list[..n];
      FirstLevelOfPart(list[..|list| - 1], n, k);
    } else {
      assert list[..n] == list;
    }
  }

  lemma {:induction false} SameKeysSameFirst(a: seq<Configuration>, b: seq<Configuration>, k: ConfigurationType)
    requires |a| == |b| && forall i | 0 <= i < |a| :: Has(a[i], b[i].level, b[i].kind)
    ensures FirstLevel(a, k) == FirstLevel(b, k)
  {
    if a != [] {
      SameKeysSameFirst(a[..|a| - 1], b[..|b| - 1], k);
    }
  }

  lemma OtherKindsStayAway(before: seq<Configuration>, after: seq<Configuration>, w: Configuration, k: ConfigurationType)
    requires Unique(before) && WroteOne(before, after, w) && w.kind != k && FirstLevel(before, k).None?
    ensures FirstLevel(after, k).None?
  {
    FirstLevelNone(after, k);
    hide FirstLevel, Find, Value;
    forall i | 0 <= i < |after|
      ensures after[i].kind != k
    {
      ValueAt(after, i);
      NothingFound(before, after[i].level, k);
    }
  }

  /** An entry appended to a list without the type becomes the first of it. */
  lemma NewEntryIsFirst(before: seq<Configuration>, after: seq<Configuration>, k: ConfigurationType)
    requires |after| > |before| && after[|before|].kind == k && FirstLevel(before, k).None?
    requires forall i | 0 <= i < |before| :: Has(after[i], before[i].level, before[i].kind)
    ensures FirstLevel(after, k) == Some(after[|before|].level)
  {
    hide FirstLevel;
    FirstLevelNone(before, k);
    FirstLevelAt(after, |before|, k);
  }

  lemma OldEntryStaysFirst(before: seq<Configuration>, after: seq<Configuration>, k: ConfigurationType)
    requires |after| >= |before| && FirstLevel(before, k).Some?
    requires forall i | 0 <= i < |before| :: Has(after[i], before[i].level, before[i].kind)
    ensures FirstLevel(after, k) == FirstLevel(before, k)
  {
    SameKeysSameFirst(after[..|before|], before, k);
    FirstLevelOfPart(after, |before|, k);
  }

  /** A type without entries has no entry at any level. */
  lemma NothingFound(list: seq<Configuration>, l: Level, k: ConfigurationType)
    requires FirstLevel(list, k).None?
    ensures Find(list, l, k).None? && Value(list, l, k).None?
  {
    FirstLevelNone(list, k);
    hide FirstLevel;
  }

  lemma FirstLevelAfter(before: seq<Configuration>, after: seq<Configuration>, w: Configuration, k: ConfigurationType)
    requires Unique(before) && WroteOne(before, after, w)
    ensures FirstLevel(after, k)
         == if FirstLevel(before, k).Some? then FirstLevel(before, k) else if w.kind == k then Some(w.level) else None
  {
    hide FirstLevel, Find, Value, Unique;
    if FirstLevel(before, k).Some? {
      OldEntryStaysFirst(before, after, k);
    } else if w.kind == k {
      NothingFound(before, w.level, k);
      NewEntryIsFirst(before, after, k);
    } else {
      OtherKindsStayAway(before, after, w, k);
    }
  }

  lemma NothingWritten(list: seq<Configuration>)
    requires Unique(list)
    ensures Written(list, list, [])
  {
  }

  lemma OneMoreWrite(start: seq<Configuration>, before: seq<Configuration>, after: seq<Configuration>,
                     writes: seq<Configuration>, w: Configuration)
    requires Written(start, before, writes) && WroteOne(before, after, w)
    ensures Written(start, after, writes + [w])
  {
    var all := writes + [w];
    assert all[..|all| - 1] == writes;
    forall k
      ensures FirstLevel(after, k) == if FirstLevel(start, k).Some? then FirstLevel(start, k) else FirstLevel(all, k)
    {
      FirstLevelAfter(before, after, w, k);
    }
  }

  class Configurations {
    var list: seq<Configuration>

    constructor ()
      ensures list == []
    {
      list := [];
    }

    method Clear()
      modifies this
      ensures list == []
    {
      list := [];
    }

    /** Writes one entry, and all levels when the level is Global. */
    method UnsafeSet(level: Level, kind: ConfigurationType, value: string)
      requires Unique(list)
      modifies this
      ensures Wrote(old(list), list, (l, k) => Writes(level, kind, l, k), value)
      ensures Find(old(list), level, kind).None? ==>
                |list| > |old(list)| && Has(list[|old(list)|], level, kind)
      decreases if level == Global then 2 else 0
    {
      match Find(list, level, kind) {
        case None =>
          AppendWrites(list, Configuration(level, kind, value));
          list := list + [Configuration(level, kind, value)];
        case Some(i) =>
          UpdateWrites(list, i, value);
          list := list[i := list[i].(value := value)];
      }
      if level == Global {
        UnsafeSetGlobally(kind, value, false);
      }
    }

    /** Writes every level but Global, and Global first if asked to. */
    method UnsafeSetGlobally(kind: ConfigurationType, value: string, includeGlobalLevel: bool)
      requires Unique(list)
      modifies this
      ensures Wrote(old(list), list, (l, k) => k == kind && (l != Global || includeGlobalLevel), value)
      decreases if includeGlobalLevel then 3 else 1
    {
      if includeGlobalLevel {
        UnsafeSet(Global, kind, value);
      }
      var lIndex := MIN_VALID;
      while lIndex <= MAX_VALID
        invariant lIndex == 256 || IsLevelIndex(lIndex)
        invariant Wrote(old(list), list, CoveredBelow(kind, includeGlobalLevel, lIndex), value)
        decreases 256 - lIndex
      {
        ghost var mid := list;
        UnsafeSet(CastFromInt(lIndex), kind, value);
        NextLevel(old(list), mid, list, kind, includeGlobalLevel, lIndex, value);
        lIndex := lIndex * 2;
      }
      AllLevelsCovered(old(list), list, kind, includeGlobalLevel, value);
    }

    method Set(level: Level, kind: ConfigurationType, value: string)
      requires Unique(list)
      modifies this
      ensures WroteOne(old(list), list, Configuration(level, kind, value))
    {
      UnsafeSet(level, kind, value);
      if level == Global {
        UnsafeSetGlobally(kind, value, false);
      }
    }

    /** Writes every level but Global, and if asked to Global first, which is then one Global write. */
    method SetGlobally(kind: ConfigurationType, value: string, includeGlobalLevel: bool)
      requires Unique(list)
      modifies this
      ensures Wrote(old(list), list, (l, k) => k == kind && (l != Global || includeGlobalLevel), value)
      ensures includeGlobalLevel ==> WroteOne(old(list), list, Configuration(Global, kind, value))
    {
      if includeGlobalLevel {
        Set(Global, kind, value);
      }
      var lIndex := MIN_VALID;
      while lIndex <= MAX_VALID
        invariant lIndex == 256 || IsLevelIndex(lIndex)
        invariant Wrote(old(list), list, CoveredBelow(kind, includeGlobalLevel, lIndex), value)
        invariant includeGlobalLevel && Find(old(list), Global, kind).None? ==>
                    |list| > |old(list)| && Has(list[|old(list)|], Global, kind)
        decreases 256 - lIndex
      {
        ghost var mid := list;
        Set(CastFromInt(lIndex), kind, value);
        NextLevel(old(list), mid, list, kind, includeGlobalLevel, lIndex, value);
        lIndex := lIndex * 2;
      }
      AllLevelsCovered(old(list), list, kind, includeGlobalLevel, value);
    }

    /** One type's default, for all levels. */
    method SetDefault(kind: ConfigurationType, value: string, ghost start: seq<Configuration>,
                      ghost done: seq<Configuration>)
      requires Written(start, list, done)
      modifies this
      ensures Written(start, list, done + [Configuration(Global, kind, value)])
    {
      SetGlobally(kind, value, true);
      OneMoreWrite(start, old(list), list, done, Configuration(Global, kind, value));
    }

    /** On any registry, empty or not: every level gets its default of every type. A type without entries gets
        Global's first; a type that already has a first entry keeps it. */
    method SetToDefault()
      requires Unique(list)
      modifies this
      ensures Unique(list) && forall l, k :: Value(list, l, k) == Some(DefaultValue(l, k))
      ensures forall k :: FirstLevel(list, k) == if FirstLevel(old(list), k).Some? then FirstLevel(old(list), k) else Some(Global)
    {
      hide Written;
      ghost var start, d := list, DEFAULTS;
      NothingWritten(list);
      assert d[..0] == [];
      SetDefault(Enabled, "true", start, d[..0]);
      assert d[..1] == d[..0] + [d[0]];
      SetDefault(Filename, "logs/myeasylog.log", start, d[..1]);
      assert d[..2] == d[..1] + [d[1]];
      SetDefault(ToFile, "true", start, d[..2]);
      assert d[..3] == d[..2] + [d[2]];
      SetDefault(ToStandardOutput, "true", start, d[..3]);
      assert d[..4] == d[..3] + [d[3]];
      SetDefault(SubsecondPrecision, "3", start, d[..4]);
      assert d[..5] == d[..4] + [d[4]];
      SetDefault(PerformanceTracking, "true", start, d[..5]);
      assert d[..6] == d[..5] + [d[5]];
      SetDefault(MaxLogFileSize, "0", start, d[..6]);
      assert d[..7] == d[..6] + [d[6]];
      SetDefault(LogFlushThreshold, "0", start, d[..7]);
      assert d[..8] == d[..7] + [d[7]];
      SetDefault(Format, "%datetime %level [%logger] %msg", start, d[..8]);
      assert d[..9] == d[..8] + [d[8]];
      SetFormats(start);
      WrittenDefaults(start, list);
    }

    /** The last part of `setToDefault`: the formats that differ from Global's. */
    method SetFormats(ghost start: seq<Configuration>)
      requires Written(start, list, DEFAULTS[..9])
      modifies this
      ensures Written(start, list, DEFAULTS)
    {
      hide Written;
      var formats := [Configuration(Debug, Format, "%datetime %level [%logger] [%user@%host] [%func] [%loc] %msg"),
                      Configuration(Error, Format, "%datetime %level [%logger] %msg"),
                      Configuration(Fatal, Format, "%datetime %level [%logger] %msg"),
                      Configuration(Verbose, Format, "%datetime %level-%vlevel [%logger] %msg"),
                      Configuration(Trace, Format, "%datetime %level [%logger] [%func] [%loc] %msg")];
      assert DEFAULTS == DEFAULTS[..9] + formats;
      SetAll(formats, start, DEFAULTS[..9]);
    }

    /** The writes of `conf`, one after the other. */
    method SetAll(conf: seq<Configuration>, ghost start: seq<Configuration>, ghost done: seq<Configuration>)
      requires Written(start, list, done)
      modifies this
      ensures Written(start, list, done + conf)
    {
      assert done + [] == done;
      for i := 0 to |conf|
        invariant Written(start, list, done + conf[..i])
      {
        ghost var before := list;
        Set(conf[i].level, conf[i].kind, conf[i].value);
        OneMoreWrite(start, before, list, done + conf[..i], conf[i]);
        assert done + conf[..i + 1] == done + conf[..i] + [conf[i]];
      }
      assert conf[..|conf|] == conf;
    }

    /** Every entry of `base` is written, in its order; nothing happens for no base or the registry itself. */
    method SetFromBase(base: Configurations?)
      requires Unique(list)
      modifies this
      ensures if base == null || base == this then list == old(list) else Written(old(list), list, base.list)
    {
      if base == null || base == this {
        return;
      }
      NothingWritten(list);
      SetAll(base.list, list, []);
      assert [] + base.list == base.list;
    }
  }

  /** What `setToDefault` writes. */
  const DEFAULTS: seq<Configuration> := [
    Configuration(Global, Enabled, "true"),
    Configuration(Global, Filename, "logs/myeasylog.log"),
    Configuration(Global, ToFile, "true"),
    Configuration(Global, ToStandardOutput, "true"),
    Configuration(Global, SubsecondPrecision, "3"),
    Configuration(Global, PerformanceTracking, "true"),
    Configuration(Global, MaxLogFileSize, "0"),
    Configuration(Global, LogFlushThreshold, "0"),
    Configuration(Global, Format, "%datetime %level [%logger] %msg"),
    Configuration(Debug, Format, "%datetime %level [%logger] [%user@%host] [%func] [%loc] %msg"),
    Configuration(Error, Format, "%datetime %level [%logger] %msg"),
    Configuration(Fatal, Format, "%datetime %level [%logger] %msg"),
    Configuration(Verbose, Format, "%datetime %level-%vlevel [%logger] %msg"),
    Configuration(Trace, Format, "%datetime %level [%logger] [%func] [%loc] %msg")
  ]

  function DefaultValue(l: Level, k: ConfigurationType): string {
    match k
    case Filename => "logs/myeasylog.log"
    case SubsecondPrecision => "3"
    case MaxLogFileSize => "0"
    case LogFlushThreshold => "0"
    case Format =>
      if l == Debug then "%datetime %level [%logger] [%user@%host] [%func] [%loc] %msg"
      else if l == Verbose then "%datetime %level-%vlevel [%logger] %msg"
      else if l == Trace then "%datetime %level [%logger] [%func] [%loc] %msg"
      else "%datetime %level [%logger] %msg"
    case _ => "true"
  }

  /** The defaults, spelled out. */
  lemma DefaultsAre(l: Level)
    ensures DefaultValue(l, Enabled) == DefaultValue(l, ToFile) == DefaultValue(l, ToStandardOutput) == "true"
    ensures DefaultValue(l, PerformanceTracking) == "true" && DefaultValue(l, Filename) == "logs/myeasylog.log"
    ensures DefaultValue(l, SubsecondPrecision) == "3"
    ensures DefaultValue(l, MaxLogFileSize) == DefaultValue(l, LogFlushThreshold) == "0"
    ensures match l
            case Debug =>
              DefaultValue(l, Format) == "%datetime %level [%logger] [%user@%host] [%func] [%loc] %msg"
            case Verbose => DefaultValue(l, Format) == "%datetime %level-%vlevel [%logger] %msg"
            case Trace => DefaultValue(l, Format) == "%datetime %level [%logger] [%func] [%loc] %msg"
            case _ => DefaultValue(l, Format) == "%datetime %level [%logger] %msg"
  {
  }

  /** The write at `i` decides an entry if no later one covers it. */
  lemma {:induction false} LastWriteIs(value: Option<string>, writes: seq<Configuration>, i: nat, l: Level, k: ConfigurationType)
    requires i < |writes| && Writes(writes[i].level, writes[i].kind, l, k)
    requires forall j | i < j < |writes| :: !Writes(writes[j].level, writes[j].kind, l, k)
    ensures LastWrite(value, writes, l, k) == Some(writes[i].value)
  {
    if i < |writes| - 1 {
      LastWriteIs(value, writes[..|writes| - 1], i, l, k);
    }
  }

  /** Where `setToDefault` writes the default of an entry for the last time. */
  function DefaultAt(l: Level, k: ConfigurationType): (i: nat)
    ensures i < |DEFAULTS| && Writes(DEFAULTS[i].level, DEFAULTS[i].kind, l, k)
    ensures DEFAULTS[i].value == DefaultValue(l, k)
    ensures forall j | i < j < |DEFAULTS| :: !Writes(DEFAULTS[j].level, DEFAULTS[j].kind, l, k)
  {
    match k
    case Enabled => 0
    case Filename => 1
    case ToFile => 2
    case ToStandardOutput => 3
    case SubsecondPrecision => 4
    case PerformanceTracking => 5
    case MaxLogFileSize => 6
    case LogFlushThreshold => 7
    case Format =>
      match l
      case Debug => 9
      case Error => 10
      case Fatal => 11
      case Verbose => 12
      case Trace => 13
      case _ => 8
  }

  lemma FirstLevelAt(list: seq<Configuration>, i: nat, k: ConfigurationType)
    requires i < |list| && list[i].kind == k && forall j | 0 <= j < i :: list[j].kind != k
    ensures FirstLevel(list, k) == Some(list[i].level)
  {
    FirstLevelNone(list[..i], k);
    assert list[..i + 1][..i] == list[..i];
    FirstLevelOfPart(list, i + 1, k);
  }

  function FirstDefaultAt(k: ConfigurationType): (i: nat)
    ensures i < |DEFAULTS| && DEFAULTS[i].kind == k && DEFAULTS[i].level == Global
    ensures forall j | 0 <= j < i :: DEFAULTS[j].kind != k
  {
    match k
    case Enabled => 0
    case Filename => 1
    case ToFile => 2
    case ToStandardOutput => 3
    case SubsecondPrecision => 4
    case PerformanceTracking => 5
    case MaxLogFileSize => 6
    case LogFlushThreshold => 7
    case Format => 8
  }

  lemma DefaultsStartGlobal(k: ConfigurationType)
    ensures FirstLevel(DEFAULTS, k) == Some(Global)
  {
    hide FirstLevel;
    FirstLevelAt(DEFAULTS, FirstDefaultAt(k), k);
  }

  lemma WrittenDefaults(start: seq<Configuration>, list: seq<Configuration>)
    requires Written(start, list, DEFAULTS)
    ensures Unique(list) && forall l, k :: Value(list, l, k) == Some(DefaultValue(l, k))
    ensures forall k :: FirstLevel(list, k) == if FirstLevel(start, k).Some? then FirstLevel(start, k) else Some(Global)
  {
    hide FirstLevel, Value, LastWrite;
    forall l, k
      ensures Value(list, l, k) == Some(DefaultValue(l, k))
    {
      LastWriteIs(Value(start, l, k), DEFAULTS, DefaultAt(l, k), l, k);
    }
    forall k
      ensures FirstLevel(DEFAULTS, k) == Some(Global)
    {
      DefaultsStartGlobal(k);
    }
  }

  /** Every level has exactly one entry of every type, and Global's is the first of its type. */
  ghost predicate Complete(list: seq<Configuration>) {
    && Unique(list)
    && (forall l, k :: Value(list, l, k).Some?)
    && (forall k :: FirstLevel(list, k) == Some(Global))
  }

  /** Writes keep a registry complete. */
  lemma WritesKeepComplete(before: seq<Configuration>, after: seq<Configuration>, writes: seq<Configuration>)
    requires Complete(before) && Written(before, after, writes)
    ensures Complete(after)
  {
  }

  lemma {:induction false} LastWriteConcat(value: Option<string>, a: seq<Configuration>, b: seq<Configuration>,
                                           l: Level, k: ConfigurationType)
    ensures LastWrite(value, a + b, l, k) == LastWrite(LastWrite(value, a, l, k), b, l, k)
  {
    if b == [] {
      assert a + b == a;
    } else {
      assert (a + b)[..|a + b| - 1] == a + b[..|b| - 1];
      LastWriteConcat(value, a, b[..|b| - 1], l, k);
    }
  }

  /** What copying a registry makes of its entry at `i`: the entry's own value, unless Global's entry of the
      type comes later and overwrites it. */
  lemma CopiedValue(value: Option<string>, base: seq<Configuration>, i: nat)
    requires Unique(base) && i < |base|
    ensures var g := Find(base, Global, base[i].kind);
            var j := if g.Some? && g.value > i then g.value else i;
            LastWrite(value, base, base[i].level, base[i].kind) == Some(base[j].value)
  {
    var l, k := base[i].level, base[i].kind;
    var g := Find(base, Global, k);
    var j := if g.Some? && g.value > i then g.value else i;
    forall n | j < n < |base|
      ensures !Writes(base[n].level, base[n].kind, l, k)
    {
      assert !Has(base[i], base[n].level, base[n].kind);
      assert base[n].level == Global && base[n].kind == k ==> g.Some?;
    }
    LastWriteIs(value, base, j, l, k);
  }

  /** Copying reproduces every entry if and only if no entry stands before Global's of its type with another
      value. */
  lemma CopyIsExactIff(base: seq<Configuration>)
    requires Unique(base)
    ensures (forall i | 0 <= i < |base| ::
               LastWrite(None, base, base[i].level, base[i].kind) == Value(base, base[i].level, base[i].kind))
       <==> (forall i, g | 0 <= i < g < |base| && Has(base[g], Global, base[i].kind) :: base[i].value == base[g].value)
  {
    forall i | 0 <= i < |base|
      ensures LastWrite(None, base, base[i].level, base[i].kind) == Value(base, base[i].level, base[i].kind)
         <==> forall g | i < g < |base| && Has(base[g], Global, base[i].kind) :: base[i].value == base[g].value
    {
      CopiedValue(None, base, i);
      ValueAt(base, i);
      forall g | i < g < |base| && Has(base[g], Global, base[i].kind)
        ensures Find(base, Global, base[i].kind) == Some(g)
      {
        ValueAt(base, g);
      }
    }
  }

  lemma {:induction false} FirstIsGlobal(list: seq<Configuration>, k: ConfigurationType, g: nat)
    requires Unique(list) && g < |list| && Has(list[g], Global, k)
    requires FirstLevel(list, k) == Some(Global)
    ensures forall i | 0 <= i < g :: list[i].kind != k
    decreases |list|
  {
    FirstLevelNone(list[..g], k);
    FirstLevelOfPart(list, g, k);
    if FirstLevel(list[..g], k).Some? {
      var i := FirstEntry(list[..g], k);
      assert Has(list[i], Global, k);
    }
  }

  lemma {:induction false} FirstEntry(list: seq<Configuration>, k: ConfigurationType) returns (i: nat)
    requires FirstLevel(list, k).Some?
    ensures i < |list| && list[i].kind == k && FirstLevel(list, k) == Some(list[i].level)
  {
    var n := |list| - 1;
    if FirstLevel(list[..n], k).Some? {
      i := FirstEntry(list[..n], k);
    } else {
      i := n;
    }
  }

  /** An empty registry filled from a complete one is complete and holds the same values. */
  lemma CopyOfComplete(base: seq<Configuration>, list: seq<Configuration>)
    requires Complete(base) && Written([], list, base)
    ensures Complete(list) && forall l, k :: Value(list, l, k) == Value(base, l, k)
  {
    forall l, k
      ensures Value(list, l, k) == Value(base, l, k)
    {
      assert Value(base, l, k).Some? && Value(base, Global, k).Some?;
      var i, g := Find(base, l, k).value, Find(base, Global, k).value;
      FirstIsGlobal(base, k, g);
      CopiedValue(None, base, i);
    }
    assert forall k :: FirstLevel([], k).None?;
  }

  // ---------------------------------------------------------------- the sparse index

  function TrimLeft(s: string): string {
    if s != "" && IsSpace(s[0]) then TrimLeft(s[1..]) else s
  }

  function TrimRight(s: string): string {
    if s != "" && IsSpace(s[|s| - 1]) then TrimRight(s[..|s| - 1]) else s
  }

  predicate IsSpace(c: char) {
    c == ' ' || ('\t' <= c <= '\r')
  }

  function GetBool(s: string): bool {
    TrimRight(TrimLeft(s)) in ["TRUE", "true", "1"]
  }

  /** A value counts as true exactly when it is "TRUE", "true" or "1" with any white space around it: what is trimmed
      is white space, and white space around one of these words is trimmed away. */
  lemma TrueIsAWord(s: string) returns (lead: string, word: string, trail: string)
    requires GetBool(s)
    ensures s == lead + word + trail && (word == "TRUE" || word == "true" || word == "1")
    ensures forall i | 0 <= i < |lead| :: lead[i] == ' ' || '\t' <= lead[i] <= '\r'
    ensures forall i | 0 <= i < |trail| :: trail[i] == ' ' || '\t' <= trail[i] <= '\r'
  {
    hide TrimLeft, TrimRight;
    lead := TrimmedLeft(s);
    trail := TrimmedRight(TrimLeft(s));
    word := TrimRight(TrimLeft(s));
    assert lead + (word + trail) == lead + word + trail;
  }

  lemma WordIsTrue(lead: string, word: string, trail: string)
    requires word == "TRUE" || word == "true" || word == "1"
    requires forall i | 0 <= i < |lead| :: lead[i] == ' ' || '\t' <= lead[i] <= '\r'
    requires forall i | 0 <= i < |trail| :: trail[i] == ' ' || '\t' <= trail[i] <= '\r'
    ensures GetBool(lead + word + trail)
  {
    hide TrimLeft, TrimRight;
    assert lead + word + trail == lead + (word + trail);
    TrimLeftOf(lead, word + trail);
    TrimRightOf(word, trail);
  }

  lemma {:induction false} TrimmedLeft(s: string) returns (lead: string)
    ensures s == lead + TrimLeft(s) && forall i | 0 <= i < |lead| :: lead[i] == ' ' || '\t' <= lead[i] <= '\r'
  {
    lead := "";
    if s != "" && IsSpace(s[0]) {
      var later := TrimmedLeft(s[1..]);
      lead := [s[0]] + later;
    }
  }

  lemma {:induction false} TrimmedRight(s: string) returns (trail: string)
    ensures s == TrimRight(s) + trail && forall i | 0 <= i < |trail| :: trail[i] == ' ' || '\t' <= trail[i] <= '\r'
  {
    trail := "";
    if s != "" && IsSpace(s[|s| - 1]) {
      var earlier := TrimmedRight(s[..|s| - 1]);
      trail := earlier + [s[|s| - 1]];
    }
  }

  lemma {:induction false} TrimLeftOf(lead: string, s: string)
    requires forall i | 0 <= i < |lead| :: lead[i] == ' ' || '\t' <= lead[i] <= '\r'
    requires s != "" && !IsSpace(s[0])
    ensures TrimLeft(lead + s) == s
  {
    if lead == "" {
      assert lead + s == s;
    } else {
      assert (lead + s)[1..] == lead[1..] + s;
      TrimLeftOf(lead[1..], s);
    }
  }

  lemma {:induction false} TrimRightOf(s: string, trail: string)
    requires forall i | 0 <= i < |trail| :: trail[i] == ' ' || '\t' <= trail[i] <= '\r'
    requires s != "" && !IsSpace(s[|s| - 1])
    ensures TrimRight(s + trail) == s
  {
    if trail == "" {
      assert s + trail == s;
    } else {
      var all := s + trail;
      assert all[..|all| - 1] == s + trail[..|trail| - 1];
      TrimRightOf(s, trail[..|trail| - 1]);
    }
  }

  /** `setValue`: the first value goes to Global whatever its level; a value equal to Global's is left out. */
  function SetValue<V(==)>(level: Level, value: V, index: map<Level, V>): map<Level, V> {
    if index == map[] then map[Global := value]
    else if Global in index && index[Global] == value then index
    else index[level := value]
  }

  /** `unsafeGetConfigByVal`: the level's own value, else Global's; `None` where the source reports an internal
      error and answers with the type's default. */
  function GetConfigByVal<V>(level: Level, index: map<Level, V>): Option<V> {
    if level in index then Some(index[level]) else if Global in index then Some(index[Global]) else None
  }

  /** The levels and flags of the entries of one type, in registry order. */
  function Flags(list: seq<Configuration>, k: ConfigurationType): seq<(Level, bool)> {
    if list == [] then []
    else
      var c := list[|list| - 1];
      Flags(list[..|list| - 1], k) + if c.kind == k then [(c.level, GetBool(c.value))] else []
  }

  /** The index built from such a sequence. */
  function Index(flags: seq<(Level, bool)>): map<Level, bool> {
    if flags == [] then map[]
    else
      var (l, v) := flags[|flags| - 1];
      SetValue(l, v, Index(flags[..|flags| - 1]))
  }

  class TypedConfigurations {
    var enabledMap: map<Level, bool>
    var toStandardOutputMap: map<Level, bool>

    constructor (configurations: Configurations)
      ensures enabledMap == Index(Flags(configurations.list, Enabled))
      ensures toStandardOutputMap == Index(Flags(configurations.list, ToStandardOutput))
    {
      enabledMap, toStandardOutputMap := map[], map[];
      new;
      Build(configurations);
    }

    /** Reads the registry from front to back. */
    method Build(configurations: Configurations)
      requires enabledMap == map[] && toStandardOutputMap == map[]
      modifies this
      ensures enabledMap == Index(Flags(configurations.list, Enabled))
      ensures toStandardOutputMap == Index(Flags(configurations.list, ToStandardOutput))
    {
      var list := configurations.list;
      for i := 0 to |list|
        invariant enabledMap == Index(Flags(list[..i], Enabled))
        invariant toStandardOutputMap == Index(Flags(list[..i], ToStandardOutput))
      {
        var conf := list[i];
        assert list[..i + 1][..i] == list[..i];
        IndexSnoc(list[..i + 1], Enabled);
        IndexSnoc(list[..i + 1], ToStandardOutput);
        if conf.kind == Enabled {
          enabledMap := SetValue(conf.level, GetBool(conf.value), enabledMap);
        } else if conf.kind == ToStandardOutput {
          toStandardOutputMap := SetValue(conf.level, GetBool(conf.value), toStandardOutputMap);
        }
      }
      assert list[..|list|] == list;
    }
  }

  lemma IndexSnoc(list: seq<Configuration>, k: ConfigurationType)
    requires list != []
    ensures var c := list[|list| - 1];
            var before := Index(Flags(list[..|list| - 1], k));
            Index(Flags(list, k)) == if c.kind == k then SetValue(c.level, GetBool(c.value), before) else before
  {
    var c := list[|list| - 1];
    var before := Flags(list[..|list| - 1], k);
    if c.kind == k {
      assert Flags(list, k)[..|before|] == before;
    } else {
      assert Flags(list, k) == before;
    }
  }

  // ---------------------------------------------------------------- the index agrees with the registry

  predicate Distinct(flags: seq<(Level, bool)>) {
    forall i, j | 0 <= i < j < |flags| :: flags[i].0 != flags[j].0
  }

  /** What a level without an entry of its own falls back to. */
  function Fallback(flags: seq<(Level, bool)>): bool
    requires flags != []
  {
    var last := flags[|flags| - 1];
    if last.0 == Global || |flags| == 1 then last.1 else Fallback(flags[..|flags| - 1])
  }

  /** Global always holds the fallback. */
  lemma {:induction false} IndexFallsBack(flags: seq<(Level, bool)>)
    requires flags != []
    ensures var index := Index(flags); Global in index && index[Global] == Fallback(flags)
  {
    if |flags| > 1 {
      IndexFallsBack(flags[..|flags| - 1]);
    }
  }

  /** Only levels of the sequence are indexed, besides Global. */
  lemma {:induction false} IndexLevels(flags: seq<(Level, bool)>, l: Level)
    requires l != Global && forall i | 0 <= i < |flags| :: flags[i].0 != l
    ensures l !in Index(flags)
  {
    if flags != [] {
      IndexLevels(flags[..|flags| - 1], l);
    }
  }

  /** Whether the value at `i` differs from the fallback at the time it is added; the first one never does. */
  predicate Stored(flags: seq<(Level, bool)>, i: nat)
    requires i < |flags|
  {
    i > 0 && flags[i].1 != Fallback(flags[..i])
  }

  /** A level other than Global is indexed, with its own value, exactly when that value was stored. */
  lemma {:induction false} IndexStores(flags: seq<(Level, bool)>, i: nat)
    requires Distinct(flags) && i < |flags| && flags[i].0 != Global
    ensures var index := Index(flags);
            && (flags[i].0 in index <==> Stored(flags, i))
            && (Stored(flags, i) ==> index[flags[i].0] == flags[i].1)
    decreases |flags|
  {
    var n := |flags| - 1;
    var init := flags[..n];
    if n > 0 {
      IndexFallsBack(init);
      if i < n {
        assert init[..i] == flags[..i];
        IndexStores(init, i);
      } else {
        IndexLevels(init, flags[i].0);
      }
    }
  }

  /** The fallback is the first value until Global is seen, and Global's value from then on. */
  lemma {:induction false} FallbackIs(flags: seq<(Level, bool)>, g: nat, n: nat)
    requires Distinct(flags) && 0 < n <= |flags| && g <= |flags|
    requires g < |flags| ==> flags[g].0 == Global
    requires forall i | 0 <= i < n && flags[i].0 == Global :: i == g
    ensures Fallback(flags[..n]) == if g < n then flags[g].1 else flags[0].1
  {
    if n > 1 {
      assert flags[..n][..n - 1] == flags[..n - 1];
      FallbackIs(flags, g, n - 1);
    }
  }

  /** What a lookup of the level at `i` answers: its own value, or the fallback at the end. */
  lemma LookupIs(flags: seq<(Level, bool)>, i: nat)
    requires Distinct(flags) && i < |flags|
    ensures GetConfigByVal(flags[i].0, Index(flags))
         == Some(if flags[i].0 != Global && Stored(flags, i) then flags[i].1 else Fallback(flags))
  {
    IndexFallsBack(flags);
    if flags[i].0 != Global {
      IndexStores(flags, i);
    }
  }

  ghost predicate Agrees(flags: seq<(Level, bool)>) {
    forall i | 0 <= i < |flags| :: GetConfigByVal(flags[i].0, Index(flags)) == Some(flags[i].1)
  }

  /** The exact condition: every registered level reads its own value back from the index if and only if
      Global is not registered for the type, or the first value registered equals Global's. */
  lemma IndexAgreesIff(flags: seq<(Level, bool)>)
    requires Distinct(flags) && flags != []
    ensures Agrees(flags) <==> forall g | 0 <= g < |flags| && flags[g].0 == Global :: flags[0].1 == flags[g].1
  {
    var n := |flags|;
    var g := if k :| 0 <= k < n && flags[k].0 == Global then k else n;
    assert flags[..n] == flags;
    FallbackIs(flags, g, n);
    LookupIs(flags, 0);
    forall i | 0 <= i < n
      ensures (g == n || flags[0].1 == flags[g].1) ==> GetConfigByVal(flags[i].0, Index(flags)) == Some(flags[i].1)
    {
      LookupIs(flags, i);
      if i > 0 {
        FallbackIs(flags, g, i);
      }
    }
  }

  /** Where the flag at `j` comes from. */
  lemma {:induction false} FlagOrigin(list: seq<Configuration>, k: ConfigurationType, j: nat) returns (i: nat)
    requires j < |Flags(list, k)|
    ensures i < |list| && list[i].kind == k && Flags(list, k)[j] == (list[i].level, GetBool(list[i].value))
  {
    var n := |list| - 1;
    if j < |Flags(list[..n], k)| {
      i := FlagOrigin(list[..n], k, j);
    } else {
      i := n;
    }
  }

  lemma {:induction false} FlagsDistinct(list: seq<Configuration>, k: ConfigurationType)
    requires Unique(list)
    ensures Distinct(Flags(list, k))
  {
    if list != [] {
      var n := |list| - 1;
      var init := Flags(list[..n], k);
      FlagsDistinct(list[..n], k);
      forall j | 0 <= j < |init| && list[n].kind == k
        ensures init[j].0 != list[n].level
      {
        var i := FlagOrigin(list[..n], k, j);
        assert !Has(list[i], list[n].level, list[n].kind);
      }
    }
  }

  lemma {:induction false} FlagIsThere(list: seq<Configuration>, k: ConfigurationType, i: nat)
    requires i < |list| && list[i].kind == k
    ensures (list[i].level, GetBool(list[i].value)) in Flags(list, k)
  {
    var n := |list| - 1;
    if i < n {
      FlagIsThere(list[..n], k, i);
    }
  }

  /** The first flag is that of the first entry. */
  lemma {:induction false} FirstFlagLevel(list: seq<Configuration>, k: ConfigurationType)
    ensures FirstLevel(list, k) == if Flags(list, k) == [] then None else Some(Flags(list, k)[0].0)
  {
    if list != [] {
      FirstFlagLevel(list[..|list| - 1], k);
    }
  }

  lemma FlagIffValue(list: seq<Configuration>, k: ConfigurationType, l: Level, v: bool)
    requires Unique(list)
    ensures (l, v) in Flags(list, k) <==> Value(list, l, k).Some? && GetBool(Value(list, l, k).value) == v
  {
    if (l, v) in Flags(list, k) {
      var j :| 0 <= j < |Flags(list, k)| && Flags(list, k)[j] == (l, v);
      var i := FlagOrigin(list, k, j);
      ValueAt(list, i);
    }
    if Value(list, l, k).Some? {
      FlagIsThere(list, k, Find(list, l, k).value);
    }
  }

  ghost predicate ReadsBack(list: seq<Configuration>, k: ConfigurationType) {
    forall l | Value(list, l, k).Some? ::
      GetConfigByVal(l, Index(Flags(list, k))) == Some(GetBool(Value(list, l, k).value))
  }

  lemma ReadsBackIffAgrees(list: seq<Configuration>, k: ConfigurationType)
    requires Unique(list)
    ensures ReadsBack(list, k) <==> Agrees(Flags(list, k))
  {
    hide Flags, Index, GetConfigByVal, GetBool, Value, Unique;
    var flags := Flags(list, k);
    forall l, v
      ensures (l, v) in flags <==> Value(list, l, k).Some? && GetBool(Value(list, l, k).value) == v
    {
      FlagIffValue(list, k, l, v);
    }
    if Agrees(flags) {
      forall l | Value(list, l, k).Some?
        ensures GetConfigByVal(l, Index(flags)) == Some(GetBool(Value(list, l, k).value))
      {
        var j :| 0 <= j < |flags| && flags[j] == (l, GetBool(Value(list, l, k).value));
      }
    }
    if ReadsBack(list, k) {
      forall i | 0 <= i < |flags|
        ensures GetConfigByVal(flags[i].0, Index(flags)) == Some(flags[i].1)
      {
        assert (flags[i].0, flags[i].1) in flags;
      }
    }
  }

  /** The exact condition for any registry: the index answers with the registered value for every registered
      level if and only if Global is not registered for the type, or the first entry of the type says the same
      as Global's. */
  lemma RegistryReadsBackIff(list: seq<Configuration>, k: ConfigurationType)
    requires Unique(list) && Flags(list, k) != []
    ensures ReadsBack(list, k)
       <==> (Value(list, Global, k).Some? ==> Flags(list, k)[0].1 == GetBool(Value(list, Global, k).value))
  {
    var flags := Flags(list, k);
    FlagsDistinct(list, k);
    IndexAgreesIff(flags);
    ReadsBackIffAgrees(list, k);
    hide Flags, Index, GetConfigByVal, GetBool, Value, Unique, Agrees, ReadsBack;
    forall g | 0 <= g < |flags| && flags[g].0 == Global
      ensures Value(list, Global, k).Some? && GetBool(Value(list, Global, k).value) == flags[g].1
    {
      assert flags[g] == (Global, flags[g].1);
      FlagIffValue(list, k, Global, flags[g].1);
    }
    if Value(list, Global, k).Some? {
      FlagIffValue(list, k, Global, GetBool(Value(list, Global, k).value));
      var g :| 0 <= g < |flags| && flags[g] == (Global, GetBool(Value(list, Global, k).value));
    }
  }

  /** On a complete registry the sparse index answers for every level what the registry holds. */
  lemma IndexAgreesWithRegistry(list: seq<Configuration>, k: ConfigurationType, l: Level)
    requires Complete(list)
    ensures GetConfigByVal(l, Index(Flags(list, k))) == Some(GetBool(Value(list, l, k).value))
  {
    assert Value(list, l, k).Some? && Value(list, Global, k).Some?;
    FlagIffValue(list, k, l, GetBool(Value(list, l, k).value));
    FirstFlagLevel(list, k);
    var first := Flags(list, k)[0];
    FlagIffValue(list, k, Global, first.1);
    assert first in Flags(list, k);
    RegistryReadsBackIff(list, k);
  }

  lemma FirstIsAnsweredGlobally(flags: seq<(Level, bool)>, g: nat)
    requires Distinct(flags) && g < |flags| && flags[g].0 == Global
    ensures GetConfigByVal(flags[0].0, Index(flags)) == Some(flags[g].1)
  {
    hide Index, GetConfigByVal;
    LookupIs(flags, 0);
    FallbackIs(flags, g, |flags|);
    assert flags[..|flags|] == flags;
  }

  /** The level registered first is answered with Global's value, whatever its own. */
  lemma FirstLevelIsAnsweredGlobally(list: seq<Configuration>, k: ConfigurationType)
    requires Unique(list) && FirstLevel(list, k).Some? && Value(list, Global, k).Some?
    ensures GetConfigByVal(FirstLevel(list, k).value, Index(Flags(list, k))) == Some(GetBool(Value(list, Global, k).value))
  {
    hide Flags, Index, GetBool, Value, Unique, FirstLevel, Distinct, GetConfigByVal;
    var flags, v := Flags(list, k), GetBool(Value(list, Global, k).value);
    FirstFlagLevel(list, k);
    FlagsDistinct(list, k);
    FlagIffValue(list, k, Global, v);
    var g :| 0 <= g < |flags| && flags[g] == (Global, v);
    FirstIsAnsweredGlobally(flags, g);
  }

  // ---------------------------------------------------------------- loggers

  class Logger {
    const configurations: Configurations
    var typedConfigurations: TypedConfigurations?

    /** A new logger starts from an empty registry and is configured at once. */
    constructor (base: Configurations)
      ensures Indexed() && fresh(configurations) && fresh(typedConfigurations)
      ensures Written([], configurations.list, base.list)
    {
      configurations := new Configurations();
      typedConfigurations := null;
      new;
      Configure(base);
    }

    /** The index is the one of the logger's own registry. */
    ghost predicate Indexed()
      reads this, configurations, typedConfigurations
    {
      && Unique(configurations.list)
      && typedConfigurations != null
      && typedConfigurations.enabledMap == Index(Flags(configurations.list, Enabled))
      && typedConfigurations.toStandardOutputMap == Index(Flags(configurations.list, ToStandardOutput))
    }

    /** `configure`: copies the base's entries over the logger's own, unless it is the logger's own registry,
        and builds the index anew. */
    method Configure(base: Configurations)
      requires Unique(configurations.list)
      modifies this`typedConfigurations, configurations
      ensures Indexed() && fresh(typedConfigurations)
      ensures if base == configurations then configurations.list == old(configurations.list)
              else Written(old(configurations.list), configurations.list, base.list)
    {
      configurations.SetFromBase(base);
      typedConfigurations := new TypedConfigurations(configurations);
    }
  }

  /** The entries of all `bases`, in order. */
  function AllWrites(bases: seq<Configurations>): seq<Configuration>
    reads bases
  {
    if bases == [] then [] else AllWrites(bases[..|bases| - 1]) + bases[|bases| - 1].list
  }

  /** The registry is complete and holds what `writes` make of the defaults. */
  ghost predicate DefaultsThen(list: seq<Configuration>, writes: seq<Configuration>) {
    && Complete(list)
    && forall l, k :: Value(list, l, k) == LastWrite(Some(DefaultValue(l, k)), writes, l, k)
  }

  lemma DefaultsCopied(base: seq<Configuration>, list: seq<Configuration>)
    requires Unique(base) && Written([], list, base)
    requires forall l, k :: Value(base, l, k) == Some(DefaultValue(l, k))
    requires forall k :: FirstLevel(base, k) == Some(Global)
    ensures DefaultsThen(list, [])
  {
    CopyOfComplete(base, list);
    hide Value, FirstLevel, DefaultValue;
  }

  lemma OneMoreBase(before: seq<Configuration>, after: seq<Configuration>, writes: seq<Configuration>, base: seq<Configuration>)
    requires DefaultsThen(before, writes) && Written(before, after, base)
    ensures DefaultsThen(after, writes + base)
  {
    hide Value, FirstLevel, DefaultValue, LastWrite;
    WritesKeepComplete(before, after, base);
    forall l, k
      ensures Value(after, l, k) == LastWrite(Some(DefaultValue(l, k)), writes + base, l, k)
    {
      LastWriteConcat(Some(DefaultValue(l, k)), writes, base, l, k);
    }
  }

  lemma IndexAnswersLastWrite(list: seq<Configuration>, writes: seq<Configuration>, k: ConfigurationType)
    requires DefaultsThen(list, writes)
    ensures forall l :: GetConfigByVal(l, Index(Flags(list, k)))
                     == Some(GetBool(LastWrite(Some(DefaultValue(l, k)), writes, l, k).value))
  {
    hide Value, FirstLevel, DefaultValue, LastWrite, Index, Flags, GetBool;
    forall l
      ensures GetConfigByVal(l, Index(Flags(list, k)))
           == Some(GetBool(LastWrite(Some(DefaultValue(l, k)), writes, l, k).value))
    {
      IndexAgreesWithRegistry(list, k, l);
    }
  }

  /** A logger's life: it is constructed from the default registry and then configured from any registries,
      whatever order their entries have. For every level its index answers with the last value written for that
      level or globally, or else the default. */
  method LoggerLife(bases: seq<Configurations>) returns (logger: Logger)
    ensures fresh(logger) && logger.Indexed()
    ensures forall l :: GetConfigByVal(l, logger.typedConfigurations.enabledMap)
                     == Some(GetBool(LastWrite(Some("true"), AllWrites(bases), l, Enabled).value))
    ensures forall l :: GetConfigByVal(l, logger.typedConfigurations.toStandardOutputMap)
                     == Some(GetBool(LastWrite(Some("true"), AllWrites(bases), l, ToStandardOutput).value))
  {
    hide Index, Flags, Value, FirstLevel, LastWrite, DefaultsThen, Written;
    var defaults := new Configurations();
    assert forall k :: FirstLevel(defaults.list, k).None? by {
      NoFirstLevel();
    }
    defaults.SetToDefault();
    logger := new Logger(defaults);
    DefaultsCopied(defaults.list, logger.configurations.list);
    for i := 0 to |bases|
      invariant fresh(logger) && fresh(logger.configurations) && logger.Indexed()
      invariant logger.configurations !in bases
      invariant DefaultsThen(logger.configurations.list, AllWrites(bases[..i]))
    {
      ghost var before := logger.configurations.list;
      logger.Configure(bases[i]);
      OneMoreBase(before, logger.configurations.list, AllWrites(bases[..i]), bases[i].list);
      assert bases[..i + 1][..i] == bases[..i];
    }
    assert bases[..|bases|] == bases;
    IndexAnswersLastWrite(logger.configurations.list, AllWrites(bases), Enabled);
    IndexAnswersLastWrite(logger.configurations.list, AllWrites(bases), ToStandardOutput);
  }

  lemma NoFirstLevel()
    ensures forall k :: FirstLevel([], k).None?
  {
  }

  /** Outside such a life the index can answer wrongly: a level set before Global is registered stays first, so
      setting it again does not reach the index. Here Debug is off in the logger's registry and on in its index. */
  method MisorderedLogger() returns (logger: Logger)
    ensures fresh(logger) && logger.Indexed()
    ensures Value(logger.configurations.list, Debug, Enabled) == Some("false")
    ensures GetConfigByVal(Debug, logger.typedConfigurations.enabledMap) == Some(true)
  {
    hide Index, Flags, Value, FirstLevel, Written;
    var defaults := new Configurations();
    defaults.SetToDefault();
    logger := new Logger(defaults);
    logger.configurations.Clear();
    DebugFirst(logger.configurations);
    logger.Configure(logger.configurations);
    FirstLevelIsAnsweredGlobally(logger.configurations.list, Enabled);
    assert GetBool("true");
  }

  /** Debug is switched off, the defaults are set, and Debug is switched off again. */
  method DebugFirst(conf: Configurations)
    requires conf.list == []
    modifies conf
    ensures Unique(conf.list) && FirstLevel(conf.list, Enabled) == Some(Debug)
    ensures Value(conf.list, Debug, Enabled) == Some("false") && Value(conf.list, Global, Enabled) == Some("true")
  {
    hide Value, FirstLevel;
    NoFirstLevel();
    conf.Set(Debug, Enabled, "false");
    FirstLevelAfter([], conf.list, Configuration(Debug, Enabled, "false"), Enabled);
    conf.SetToDefault();
    ghost var before := conf.list;
    conf.Set(Debug, Enabled, "false");
    FirstLevelAfter(before, conf.list, Configuration(Debug, Enabled, "false"), Enabled);
  }
}
