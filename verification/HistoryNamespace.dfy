/**
 One node's namespace of published generations, over every run of exports and crashes.
 */
module HistoryNamespace {
  import opened Faults
  import opened Options
  import opened Basics
  import opened Ranges
  import opened HistoryQuery
  import opened HistorySlices
  import opened HistoryReader
  import opened HistoryWriter

  predicate Overlaps(a: Name, b: Name) {
    a.start < b.end && b.start < a.end
  }

  ghost predicate Apart(names: set<Name>) {
    forall a, b | a in names && b in names && a != b :: !Overlaps(a, b)
  }

  /** Every generation ends before the window begins or begins after it ends. */
  ghost predicate Room(names: set<Name>, name: Name) {
    forall n | n in names :: n.end <= name.start || name.end <= n.start
  }

  /** What an export finds when it has listed the namespace. */
  datatype Finding = TooMany | Same | Clash | Free

  /** A namespace with more generations than the limit cannot be read at all, not even to find the window in it. */
  function Finds(names: set<Name>, name: Name): Finding {
    if |names| > MAX_GENERATIONS then TooMany
    else if name in names then Same
    else if exists n | n in names :: Overlaps(name, n) then Clash
    else Free
  }

  /** The scan over the existing generations, in whatever order they come. */
  method Scan(names: set<Name>, name: Name) returns (f: Finding)
    requires Apart(names) && name.start < name.end
    ensures f == Finds(names, name)
  {
    if |names| > MAX_GENERATIONS { return TooMany; }
    var todo := names;
    while todo != {}
      invariant todo <= names
      invariant forall n | n in names && n !in todo :: n != name && !Overlaps(name, n)
    {
      var n :| n in todo;
      if n == name { return Same; }
      if Overlaps(name, n) { return Clash; }
      todo := todo - {n};
    }
    return Free;
  }

  // ---------------------------------------------------------------- the limit

  function DayName(i: nat): Name {
    Name(i * DAY, (i + 1) * DAY, Daily)
  }

  function DayNames(n: nat): set<Name> {
    if n == 0 then {} else DayNames(n - 1) + {DayName(n - 1)}
  }

  lemma {:induction false} DayNamesHold(n: nat)
    ensures |DayNames(n)| == n
    ensures forall x | x in DayNames(n) :: x.end <= n * DAY
  {
    if n > 0 {
      DayNamesHold(n - 1);
      assert DayName(n - 1) !in DayNames(n - 1);
    }
  }

  /**
   The limit is checked before a generation is published, not after: exporting one day after the other, each one finds
   its place free up to and including the 4097th, and from then on no export can find any of them again.
   */
  lemma LimitIsOvershot(n: nat, full: nat)
    requires n <= MAX_GENERATIONS < full
    ensures Finds(DayNames(n), DayName(n)).Free?
    ensures Finds(DayNames(full), DayName(n)).TooMany?
  {
    DayNamesHold(n);
    DayNamesHold(full);
  }

  // ---------------------------------------------------------------- the namespace

  datatype Status = Exported | Exists | UpToDate | Failed

  /** The published generations hold exactly the instants from lo to hi. */
  ghost predicate Gapless(names: set<Name>, lo: int, hi: int) {
    forall t :: Archives(names, t) <==> lo <= t < hi
  }

  /** Nothing is published, or what is published is one interval. */
  ghost predicate OneInterval(names: set<Name>, lo: int, hi: int) {
    names != {} ==> lo < hi && Gapless(names, lo, hi)
  }

  ghost predicate Archives(names: set<Name>, t: int) {
    exists n | n in names :: n.start <= t < n.end
  }

  ghost predicate GoodGeneration(codec: Codec, nodeId: string, name: Name, g: Generation) {
    && g.name == name && g.nodeId == nodeId
    && ManifestOk(g) && !Spoiled(codec, g)
    && name.start < name.end
  }

  function WindowName(first: int, last: int, resolution: Resolution): Name {
    Name(first * DAY, last * DAY, resolution)
  }

  /**
   Exactly one generation was added, at a free place, holding day by day all the samples the window's batches gave.
   */
  ghost predicate Added(
    site: Site, nodeId: string, api: Window -> Answer, first: int, last: int, resolution: Resolution,
    slices: seq<seq<Sample>>, batches: seq<Window>, before: map<Name, Generation>, after: map<Name, Generation>)
  {
    && Finds(before.Keys, WindowName(first, last, resolution)).Free?
    && 1 <= |slices| == last - first <= MAX_DAYS && DayByDay(first, slices)
    && Tiles(batches, first, last) && Flatten(slices) == RecordsOf(api, batches)
    && after == before[WindowName(first, last, resolution) := GenerationOf(site, nodeId, first, resolution, slices)]
  }

  /** The generation lists a users file and a samples file for day d, of exactly the samples that start in it. */
  ghost predicate HoldsDay(site: Site, nodeId: string, g: Generation, d: int, records: seq<Sample>) {
    && Carries(g, d, Samples, SamplesPayload(nodeId, d * DAY, (d + 1) * DAY, OfDay(records, d)))
    && Carries(g, d, Users, UsersPayload(nodeId, d * DAY, (d + 1) * DAY, site.summarize(OfDay(records, d))))
  }

  /** Some entry of the kind is for day d and names a file with this payload. */
  ghost predicate Carries(g: Generation, d: int, kind: Kind, p: Payload) {
    exists k | 0 <= k < |g.manifest.files| :: HasFile(g, k, d, kind, p)
  }

  ghost predicate HasFile(g: Generation, k: nat, d: int, kind: Kind, p: Payload) {
    && k < |g.manifest.files|
    && var e := g.manifest.files[k];
       && e.kind == kind && e.start == d * DAY && e.end == (d + 1) * DAY
       && e.name in g.files && g.files[e.name] == p
  }

  lemma WrittenHolds(
    site: Site, nodeId: string, first: int, resolution: Resolution, slices: seq<seq<Sample>>, g: Generation, d: int,
    kind: Kind, p: Payload)
    requires |slices| <= MAX_DAYS && g == GenerationOf(site, nodeId, first, resolution, slices)
    requires first <= d < first + |slices| && p == PayloadFor(site, nodeId, d, kind, slices[d - first])
    ensures Carries(g, d, kind, p)
  {
    var i := d - first;
    EntryAt(site, nodeId, first, slices, i, kind);
    FilesAt(site, nodeId, first, slices, i, kind, FileName(i, kind), p);
    assert HasFile(g, Place(i, kind), d, kind, p);
  }

  lemma WrittenHoldsDay(
    site: Site, nodeId: string, first: int, resolution: Resolution, slices: seq<seq<Sample>>, g: Generation, d: int)
    requires |slices| <= MAX_DAYS && DayByDay(first, slices) && first <= d < first + |slices|
    requires g == GenerationOf(site, nodeId, first, resolution, slices)
    ensures HoldsDay(site, nodeId, g, d, Flatten(slices))
  {
    SliceIsOfDay(first, slices, d);
    WrittenHolds(site, nodeId, first, resolution, slices, g, d, Samples,
                 PayloadFor(site, nodeId, d, Samples, slices[d - first]));
    WrittenHolds(site, nodeId, first, resolution, slices, g, d, Users,
                 PayloadFor(site, nodeId, d, Users, slices[d - first]));
  }

  /** What was added holds, for each day of its window, exactly the samples answered for it. */
  ghost predicate HoldsWindow(
    site: Site, nodeId: string, first: int, last: int, resolution: Resolution, records: seq<Sample>,
    published: map<Name, Generation>)
  {
    && WindowName(first, last, resolution) in published
    && HoldsDays(site, nodeId, published[WindowName(first, last, resolution)], first, last, records)
  }

  ghost predicate HoldsDays(
    site: Site, nodeId: string, g: Generation, first: int, last: int, records: seq<Sample>)
  {
    forall d | first <= d < last :: HoldsDay(site, nodeId, g, d, records)
  }

  lemma WrittenHoldsDays(
    site: Site, nodeId: string, first: int, last: int, resolution: Resolution, slices: seq<seq<Sample>>, g: Generation)
    requires |slices| == last - first && |slices| <= MAX_DAYS && DayByDay(first, slices)
    requires g == GenerationOf(site, nodeId, first, resolution, slices)
    ensures HoldsDays(site, nodeId, g, first, last, Flatten(slices))
  {
    forall d | first <= d < last ensures HoldsDay(site, nodeId, g, d, Flatten(slices)) {
      WrittenHoldsDay(site, nodeId, first, resolution, slices, g, d);
    }
  }

  lemma AddedHolds(
    site: Site, nodeId: string, api: Window -> Answer, first: int, last: int, resolution: Resolution,
    slices: seq<seq<Sample>>, batches: seq<Window>, before: map<Name, Generation>, after: map<Name, Generation>)
    requires Added(site, nodeId, api, first, last, resolution, slices, batches, before, after)
    ensures HoldsWindow(site, nodeId, first, last, resolution, RecordsOf(api, batches), after)
  {
    WrittenHoldsDays(site, nodeId, first, last, resolution, slices, after[WindowName(first, last, resolution)]);
  }

  /** All samples the batches gave are in the days, and the window is exported exactly if that is not too large. */
  ghost predicate FitsIff(
    site: Site, nodeId: string, api: Window -> Answer, first: int, last: int, resolution: Resolution,
    slices: seq<seq<Sample>>, batches: seq<Window>, s: Status)
  {
    && |slices| == last - first <= MAX_DAYS && Flatten(slices) == RecordsOf(api, batches)
    && (s.Exported? <==> SizesOk(site, GenerationOf(site, nodeId, first, resolution, slices)))
  }

  /** Nothing changed or vanished. */
  ghost predicate Keeps(before: map<Name, Generation>, after: map<Name, Generation>) {
    forall n | n in before :: n in after && after[n] == before[n]
  }

  lemma KeepsAdded(before: map<Name, Generation>, name: Name, g: Generation)
    requires name !in before
    ensures Keeps(before, before[name := g])
  {
  }

  lemma KeepsTransitive(a: map<Name, Generation>, b: map<Name, Generation>, c: map<Name, Generation>)
    requires Keeps(a, b) && Keeps(b, c)
    ensures Keeps(a, c)
  {
  }

  /** The property holds of every entry of the map. */
  ghost predicate Everywhere<K(!new), V(!new)>(m: map<K, V>, good: (K, V) -> bool) {
    forall k | k in m :: good(k, m[k])
  }

  lemma EverywhereGrows<K(!new), V(!new)>(m: map<K, V>, good: (K, V) -> bool, k: K, v: V)
    requires Everywhere(m, good) && good(k, v)
    ensures Everywhere(m[k := v], good)
  {
  }

  /** A generation passes all the reader's checks under its own name. */
  ghost function Good(codec: Codec, nodeId: string): (Name, Generation) -> bool {
    (name, g) => GoodGeneration(codec, nodeId, name, g)
  }

  /** Every published generation is good, and no two overlap. */
  ghost predicate GoodArchive(codec: Codec, nodeId: string, published: map<Name, Generation>) {
    Everywhere(published, Good(codec, nodeId)) && Apart(published.Keys)
  }

  lemma ApartGrows(names: set<Name>, name: Name)
    requires Apart(names) && forall n | n in names :: !Overlaps(name, n)
    ensures Apart(names + {name})
  {
  }

  lemma FreeIsClear(names: set<Name>, name: Name)
    requires Finds(names, name).Free?
    ensures name !in names && forall n | n in names :: !Overlaps(name, n)
  {
  }

  lemma ApartWith(published: map<Name, Generation>, name: Name, g: Generation)
    requires Apart(published.Keys) && forall n | n in published.Keys :: !Overlaps(name, n)
    ensures Apart(published[name := g].Keys)
  {
    ApartGrows(published.Keys, name);
    assert published[name := g].Keys == published.Keys + {name};
  }

  lemma PublishKeepsGood(codec: Codec, nodeId: string, published: map<Name, Generation>, name: Name, g: Generation)
    requires GoodArchive(codec, nodeId, published)
    requires Finds(published.Keys, name).Free?
    requires Good(codec, nodeId)(name, g)
    ensures name !in published && GoodArchive(codec, nodeId, published[name := g])
  {
    FreeIsClear(published.Keys, name);
    ApartWith(published, name, g);
    EverywhereGrows(published, Good(codec, nodeId), name, g);
  }

  /** The usage API answers the window completely, with records that can be cut into days. */
  ghost predicate Answered(api: Window -> Answer, first: int, last: int) {
    var leaves := AllLeaves(Truncation(api), Months(first, last));
    leaves.Some? && AllSliceable(api, leaves.value)
  }

  lemma WrittenIsGood(
    site: Site, nodeId: string, first: int, last: int, resolution: Resolution, slices: seq<seq<Sample>>, g: Generation)
    requires Sane(site.codec) && 1 <= |slices| == last - first <= MAX_DAYS
    requires g == GenerationOf(site, nodeId, first, resolution, slices) && SizesOk(site, g)
    ensures Good(site.codec, nodeId)(WindowName(first, last, resolution), g)
  {
    WriterSatisfiesReader(site, g, first, slices);
  }

  /**
   Query the window, cut it into days and write the files.  It fails exactly if the window is not answered or the result
   exceeds the size limits; otherwise the result passes the reader's checks.
   */
  method Build(site: Site, nodeId: string, api: Window -> Answer, first: int, last: int, resolution: Resolution)
    returns (r: Option<Generation>, ghost slices: seq<seq<Sample>>, ghost batches: seq<Window>)
    requires Sane(site.codec) && 1 <= last - first <= MAX_DAYS
    ensures r.Some? ==>
      && Good(site.codec, nodeId)(WindowName(first, last, resolution), r.value)
      && |slices| == last - first && DayByDay(first, slices)
      && Tiles(batches, first, last) && Flatten(slices) == RecordsOf(api, batches)
      && r.value == GenerationOf(site, nodeId, first, resolution, slices)
    ensures r.Some? ==> HoldsDays(site, nodeId, r.value, first, last, RecordsOf(api, batches))
    ensures Answered(api, first, last) ==> |slices| == last - first && Flatten(slices) == RecordsOf(api, batches)
    ensures r.Some? <==>
      Answered(api, first, last) && SizesOk(site, GenerationOf(site, nodeId, first, resolution, slices))
  {
    var days;
    days, batches := CollectDays(api, first, last);
    slices := [];
    if days.None? { return None, slices, batches; }
    slices := days.value;
    var g := GenerationOf(site, nodeId, first, resolution, days.value);
    if !SizesOk(site, g) { return None, slices, batches; }
    WrittenIsGood(site, nodeId, first, last, resolution, slices, g);
    WrittenHoldsDays(site, nodeId, first, last, resolution, slices, g);
    return Some(g), slices, batches;
  }

  /** One export: what the usage API answers at that time, the window and the resolution. */
  datatype Job = Job(api: Window -> Answer, window: Window, resolution: Resolution)
  {
    function Name(): Name {
      WindowName(window.start, window.end, resolution)
    }
  }

  /** The names of the windows the jobs ask for. */
  ghost function NamesOf(jobs: seq<Job>): set<Name> {
    set i | 0 <= i < |jobs| :: jobs[i].Name()
  }

  /** The windows of the jobs reported as exported are there. */
  ghost predicate Present(jobs: seq<Job>, statuses: seq<Status>, names: set<Name>) {
    |statuses| <= |jobs| && forall k | 0 <= k < |statuses| && statuses[k].Exported? :: jobs[k].Name() in names
  }

  lemma PresentGrows(jobs: seq<Job>, statuses: seq<Status>, s: Status, before: set<Name>, after: set<Name>)
    requires |statuses| < |jobs| && Present(jobs, statuses, before) && before <= after
    requires s.Exported? ==> jobs[|statuses|].Name() in after
    ensures Present(jobs, statuses + [s], after)
  {
  }

  lemma NamesGrow(jobs: seq<Job>, i: nat)
    requires i < |jobs|
    ensures NamesOf(jobs[..i + 1]) == NamesOf(jobs[..i]) + {jobs[i].Name()}
  {
    var front, longer := jobs[..i], jobs[..i + 1];
    assert forall k | 0 <= k < i :: front[k] == longer[k];
    assert longer[i] == jobs[i];
  }

  /** What a caller asks for; absent bounds are filled in. */
  datatype Asked = Asked(start: Option<int>, until: Option<int>, since: nat, incremental: bool)

  /** The window ends where it is asked to, or else at the last midnight. */
  function EndOf(today: int, asked: Asked): int {
    if asked.until.Some? then asked.until.value else today * DAY
  }

  /** Both bounds on a day boundary; an empty window is no error when an archive is to be continued. */
  function Resolved(begin: int, end: int, incremental: bool): Option<Range> {
    if begin % DAY != 0 || end % DAY != 0 then None
    else if begin < end then Some(Range(begin, end))
    else if incremental then Some(Range(end, end))
    else None
  }

  /** The window from `begin` to `end`, if both are midnights; an empty one only where an archive is continued. */
  ghost predicate IsWindow(r: Option<Range>, begin: int, end: int, incremental: bool) {
    r == if begin % 86400 == 0 && end % 86400 == 0 && (begin < end || incremental)
         then Some(Range(if begin < end then begin else end, end))
         else None
  }

  lemma ResolvedIsWindow(begin: int, end: int, incremental: bool)
    ensures IsWindow(Resolved(begin, end, incremental), begin, end, incremental)
  {
  }

  /** One incremental export: what the API answers, the day it is made, and what it is asked for. */
  datatype Increment = Increment(
    api: Window -> Answer, today: int, until: Option<int>, since: nat, resolution: Resolution)
  {
    function Asks(): Asked {
      Asked(None, until, since, true)
    }

    function End(): int {
      EndOf(today, Asks())
    }
  }

  class Namespace {
    const site: Site
    const nodeId: string
    const weather: Weather
    var published: map<Name, Generation>

    /** Temporary directories that crashed exports left behind; there is never more than one. */
    var stale: nat

    ghost predicate Valid()
      reads this
    {
      && Sane(site.codec)
      && GoodArchive(site.codec, nodeId, published)
      && stale <= 1
    }

    constructor (site: Site, nodeId: string, weather: Weather)
      requires Sane(site.codec)
      ensures Valid() && published == map[]
      ensures this.site == site && this.nodeId == nodeId && this.weather == weather
    {
      this.site, this.nodeId, this.weather := site, nodeId, weather;
      published, stale := map[], 0;
    }

    /** Write a finished generation into the temporary directory and rename the directory into place. */
    method Place(name: Name, g: Option<Generation>) returns (s: Status)
      requires Valid() && stale == 1 && Finds(published.Keys, name).Free?
      requires g.Some? ==> Good(site.codec, nodeId)(name, g.value)
      modifies this`published, this`stale, weather
      ensures Valid()
      ensures published == old(published) || (g.Some? && published == old(published)[name := g.value])
      ensures Keeps(old(published), published)
      ensures s.Exported? ==> g.Some? && published == old(published)[name := g.value]
      ensures s.Exported? || s.Failed?
      ensures old(weather.Calm()) ==> weather.Calm() && stale == 0 && (s.Exported? <==> g.Some?)
    {
      var f := weather.Meet();
      if f.Die? { return Failed; }
      if g.None? || !f.Fine? {
        stale := stale - 1;
        return Failed;
      }
      f := weather.Meet();
      if f.Die? { return Failed; }
      stale := stale - 1;
      if f.RaiseBefore? { return Failed; }
      PublishKeepsGood(site.codec, nodeId, published, name, g.value);
      KeepsAdded(published, name, g.value);
      published := published[name := g.value];
      return if f.RaiseAfter? then Failed else Exported;
    }

    /** What the namespace holds in the way of a window. */
    method Look(name: Name) returns (found: Finding)
      requires Valid() && name.start < name.end
      ensures found.TooMany? <==> |published| > MAX_GENERATIONS
      ensures found.Same? <==> |published| <= MAX_GENERATIONS && name in published
      ensures found.Free? <==> |published| <= MAX_GENERATIONS && Room(published.Keys, name)
    {
      ghost var names := published.Keys;
      ApartIsFree(site.codec, nodeId, published, name);
      FindsMeans(names, name);
      found := Scan(published.Keys, name);
    }

    /** Build and publish a window whose place is free. */
    method Publish(api: Window -> Answer, first: int, last: int, resolution: Resolution)
      returns (s: Status, ghost slices: seq<seq<Sample>>, ghost batches: seq<Window>)
      requires Valid() && stale == 0 && 1 <= last - first <= MAX_DAYS
      requires |published| <= MAX_GENERATIONS && Room(published.Keys, WindowName(first, last, resolution))
      modifies this`published, this`stale, weather
      ensures Valid() && Keeps(old(published), published)
      ensures published == old(published)
           || Added(site, nodeId, api, first, last, resolution, slices, batches, old(published), published)
      ensures s.Exported? ==>
        Added(site, nodeId, api, first, last, resolution, slices, batches, old(published), published)
      ensures s.Exported? || s.Failed?
      ensures old(weather.Calm()) ==> weather.Calm() && stale == 0
      ensures old(weather.Calm()) && Answered(api, first, last) ==>
        FitsIff(site, nodeId, api, first, last, resolution, slices, batches, s)
    {
      ApartIsFree(site.codec, nodeId, published, WindowName(first, last, resolution));
      slices, batches := [], [];
      var f := weather.Meet();
      if f.Die? || f.RaiseBefore? { return Failed, slices, batches; }
      stale := stale + 1;
      if f.RaiseAfter? { return Failed, slices, batches; }
      var g;
      g, slices, batches := Build(site, nodeId, api, first, last, resolution);
      s := Place(WindowName(first, last, resolution), g);
    }

    /** With the namespace locked and cleaned up: look at what is there, and publish what has room. */
    method Decide(api: Window -> Answer, first: int, last: int, resolution: Resolution)
      returns (s: Status, ghost slices: seq<seq<Sample>>, ghost batches: seq<Window>)
      requires Valid() && stale == 0 && 1 <= last - first <= MAX_DAYS
      modifies this`published, this`stale, weather
      ensures Valid() && Keeps(old(published), published) && !s.UpToDate?
      ensures published == old(published)
           || Added(site, nodeId, api, first, last, resolution, slices, batches, old(published), published)
      ensures s.Exported? ==>
        Added(site, nodeId, api, first, last, resolution, slices, batches, old(published), published)
      ensures published != old(published) ==>
        && Tiles(batches, first, last)
        && HoldsWindow(site, nodeId, first, last, resolution, RecordsOf(api, batches), published)
      ensures s.Exists? <==>
        |old(published)| <= MAX_GENERATIONS && WindowName(first, last, resolution) in old(published)
      ensures s.Exists? || |old(published)| > MAX_GENERATIONS ==> published == old(published)
      ensures |old(published)| > MAX_GENERATIONS ==> s.Failed?
      ensures old(weather.Calm()) ==> weather.Calm() && stale == 0
      ensures (&& |old(published)| <= MAX_GENERATIONS
               && Room(old(published).Keys, WindowName(first, last, resolution))
               && old(weather.Calm()) && Answered(api, first, last)) ==>
        FitsIff(site, nodeId, api, first, last, resolution, slices, batches, s)
    {
      slices, batches := [], [];
      var found := Look(WindowName(first, last, resolution));
      if found.Same? { return Exists, slices, batches; }
      if !found.Free? { return Failed, slices, batches; }
      s, slices, batches := Publish(api, first, last, resolution);
      if published != old(published) {
        AddedHolds(site, nodeId, api, first, last, resolution, slices, batches, old(published), published);
      }
    }

    /**
     Export a window of whole days.  Published generations never change or vanish and stay pairwise disjoint; a window
     that is published already is reported as existing exactly when the namespace is within its limit; what gets
     published holds, day by day, every sample the batches of the window answered with; and without faults a window with
     a free place whose answers are complete is published if it is within the size limits.
     */
    method Export(api: Window -> Answer, first: int, last: int, resolution: Resolution)
      returns (s: Status, ghost slices: seq<seq<Sample>>, ghost batches: seq<Window>)
      requires Valid()
      modifies this`published, this`stale, weather
      ensures Valid() && Keeps(old(published), published) && !s.UpToDate?
      ensures published == old(published)
           || Added(site, nodeId, api, first, last, resolution, slices, batches, old(published), published)
      ensures s.Exported? ==>
        Added(site, nodeId, api, first, last, resolution, slices, batches, old(published), published)
      ensures published != old(published) ==>
        && Tiles(batches, first, last)
        && HoldsWindow(site, nodeId, first, last, resolution, RecordsOf(api, batches), published)
      ensures s.Exists? ==> published == old(published)
      ensures (&& 1 <= last - first <= MAX_DAYS && old(weather.Calm())
               && WindowName(first, last, resolution) in old(published)) ==>
        (s.Exists? <==> |old(published)| <= MAX_GENERATIONS)
      ensures (&& 1 <= last - first <= MAX_DAYS && |old(published)| <= MAX_GENERATIONS
               && Room(old(published).Keys, WindowName(first, last, resolution))
               && old(weather.Calm()) && Answered(api, first, last)) ==>
        FitsIff(site, nodeId, api, first, last, resolution, slices, batches, s)
      ensures |old(published)| > MAX_GENERATIONS ==> published == old(published) && s.Failed?
      ensures old(weather.Calm()) ==> weather.Calm() && (1 <= last - first <= MAX_DAYS ==> stale == 0)
    {
      slices, batches := [], [];
      if last <= first || last - first > MAX_DAYS { return Failed, slices, batches; }
      var f := weather.Meet();
      if !f.Fine? { return Failed, slices, batches; }
      stale := 0;
      s, slices, batches := Decide(api, first, last, resolution);
    }

    /**
     Any run of exports, failing or crashing anywhere: what was published stays published, unchanged, and what is new is
     the window of one of the jobs; the window of a job reported as exported is there.
     */
    method Run(jobs: seq<Job>) returns (statuses: seq<Status>)
      requires Valid()
      modifies this`published, this`stale, weather
      ensures Valid()
      ensures Keeps(old(published), published)
      ensures |statuses| == |jobs| && Present(jobs, statuses, published.Keys)
      ensures published.Keys <= old(published.Keys) + NamesOf(jobs)
    {
      statuses := [];
      for i := 0 to |jobs|
        invariant Valid()
        invariant Keeps(old(published), published)
        invariant |statuses| == i && Present(jobs, statuses, published.Keys)
        invariant published.Keys <= old(published.Keys) + NamesOf(jobs[..i])
      {
        ghost var before := published;
        var s := ExportWindow(jobs[i].api, jobs[i].window.start, jobs[i].window.end, jobs[i].resolution);
        KeepsTransitive(old(published), before, published);
        NamesGrow(jobs, i);
        PresentGrows(jobs, statuses, s, before.Keys, published.Keys);
        statuses := statuses + [s];
      }
      assert jobs[..|jobs|] == jobs;
    }

    /** The latest end among the published generations, which only a readable namespace has. */
    method LatestEnd() returns (r: Option<int>)
      requires published != map[]
      ensures r.Some? <==> |published| <= MAX_GENERATIONS
      ensures r.Some? ==>
        (exists n | n in published :: n.end == r.value) && forall n | n in published :: n.end <= r.value
    {
      if |published| > MAX_GENERATIONS { return None; }
      assert published.Keys != {};
      var first :| first in published.Keys;
      var latest := first.end;
      var todo := published.Keys - {first};
      while todo != {}
        invariant todo <= published.Keys
        invariant exists n | n in published :: n.end == latest
        invariant forall n | n in published && n !in todo :: n.end <= latest
      {
        var n :| n in todo;
        if n.end > latest { latest := n.end; }
        todo := todo - {n};
      }
      return Some(latest);
    }

    /**
     Where the window begins: as asked, else where the archive ends if it is to be continued, else a time before its
     end.
     */
    ghost predicate Begins(asked: Asked, end: int, begin: int)
      reads this
    {
      if asked.start.Some? then begin == asked.start.value
      else if asked.incremental && published != map[] then
        (exists n | n in published :: n.end == begin) && forall n | n in published :: n.end <= begin
      else begin == end - asked.since
    }

    /** Resolve the window to export.  Only continuing an archive that is over its limit fails outright. */
    method ResolveWindow(today: int, asked: Asked) returns (r: Option<Range>, ghost begin: int)
      requires Valid()
      ensures asked.start.None? && asked.incremental && |published| > MAX_GENERATIONS ==> r.None?
      ensures !(asked.start.None? && asked.incremental && |published| > MAX_GENERATIONS) ==>
        && Begins(asked, EndOf(today, asked), begin) && r == Resolved(begin, EndOf(today, asked), asked.incremental)
        && IsWindow(r, begin, if asked.until.Some? then asked.until.value else today * 86400, asked.incremental)
      ensures !asked.incremental ==>
        begin ==
        if asked.start.Some? then asked.start.value
        else if asked.until.Some? then asked.until.value - asked.since
        else today * 86400 - asked.since
    {
      var end := EndOf(today, asked);
      var from := if asked.start.Some? then asked.start.value else end - asked.since;
      begin := from;
      if asked.start.None? && asked.incremental && published != map[] {
        var latest := LatestEnd();
        if latest.None? { return None, begin; }
        from, begin := latest.value, latest.value;
      }
      ResolvedIsWindow(from, end, asked.incremental);
      return Resolved(from, end, asked.incremental), begin;
    }

    /** An export, seen only by the names it leaves: at most the window's own name is new. */
    method ExportWindow(api: Window -> Answer, first: int, last: int, resolution: Resolution) returns (s: Status)
      requires Valid()
      modifies this`published, this`stale, weather
      ensures Valid()
      ensures Keeps(old(published), published)
      ensures || published == old(published)
              || published.Keys == old(published).Keys + {WindowName(first, last, resolution)}
      ensures s.Exported? ==> WindowName(first, last, resolution) in published.Keys
      ensures !s.UpToDate?
      ensures |old(published)| > MAX_GENERATIONS ==> s.Failed? && published == old(published)
      ensures old(weather.Calm()) ==> weather.Calm()
    {
      ghost var slices;
      ghost var batches;
      s, slices, batches := Export(api, first, last, resolution);
    }

    /** Resolve the window that follows what is archived and export it. */
    method ExportIncrement(job: Increment, ghost lo: int, ghost hi: int)
      returns (s: Status, ghost lo': int, ghost hi': int)
      requires Valid() && OneInterval(published.Keys, lo, hi)
      modifies this`published, this`stale, weather
      ensures Valid() && OneInterval(published.Keys, lo', hi')
      ensures Keeps(old(published), published)
      ensures old(published) != map[] ==> lo' == lo && (hi' == hi || hi' == job.End() > hi)
      ensures if published == old(published) then lo' == lo && hi' == hi else hi' == job.End()
      ensures s.Exported? ==> hi' == job.End() && published != old(published)
      ensures s.UpToDate? ==> published == old(published) && (published != map[] ==> hi >= job.End())
    {
      lo', hi' := lo, hi;
      ghost var begin;
      var window;
      window, begin := ResolveWindow(job.today, job.Asks());
      if window.None? { return Failed, lo', hi'; }
      ghost var before := published.Keys;
      StartsAreProper(site.codec, nodeId, published);
      if before != {} {
        LatestIsHi(before, lo, hi, begin);
      }
      if window.value.start == window.value.end { return UpToDate, lo', hi'; }
      var first, last := window.value.start / DAY, window.value.end / DAY;
      IncrementGrows(before, lo, hi, begin, job.End(), first, last, job.resolution);
      s := ExportWindow(job.api, first, last, job.resolution);
      assert s.Exported? ==> published.Keys != before;
      if published.Keys != before {
        lo', hi' := if before == {} then begin else lo, job.End();
      }
    }

    /**
     However often windows are resolved incrementally and exported, the archive is one interval without gaps, and it
     ends where the last job that took effect asked it to; one reported as exported did.
     */
    method RunIncrements(jobs: seq<Increment>) returns (statuses: seq<Status>, ghost took: seq<bool>)
      requires Valid() && published == map[]
      modifies this`published, this`stale, weather
      ensures Valid()
      ensures |statuses| == |took| == |jobs| && Marks(statuses, took)
      ensures published == map[] <==> LastOf(took).None?
      ensures published != map[] ==>
        exists lo :: lo < jobs[LastOf(took).value].End() && Gapless(published.Keys, lo, jobs[LastOf(took).value].End())
    {
      statuses, took := [], [];
      ghost var lo, hi := 0, 0;
      for i := 0 to |jobs|
        invariant Valid()
        invariant |statuses| == |took| == i && Marks(statuses, took)
        invariant OneInterval(published.Keys, lo, hi)
        invariant EndsAt(jobs, took, published.Keys, hi)
      {
        ghost var before, was := published, hi;
        var s;
        s, lo, hi := ExportIncrement(jobs[i], lo, hi);
        EndsAtGrows(jobs, took, before.Keys, was, published.Keys, hi, published != before);
        MarksGrow(statuses, took, s, published != before);
        statuses, took := statuses + [s], took + [published != before];
      }
      assert published == map[] <==> published.Keys == {};
    }
  }

  /** Whatever is reported as exported took effect. */
  ghost predicate Marks(statuses: seq<Status>, took: seq<bool>) {
    |statuses| == |took| && forall i | 0 <= i < |took| && statuses[i].Exported? :: took[i]
  }

  lemma MarksGrow(statuses: seq<Status>, took: seq<bool>, s: Status, last: bool)
    requires Marks(statuses, took) && (s.Exported? ==> last)
    ensures Marks(statuses + [s], took + [last])
  {
  }

  /** The archive is empty if nothing took effect, and otherwise ends where the last job that did asked it to. */
  ghost predicate EndsAt(jobs: seq<Increment>, took: seq<bool>, names: set<Name>, hi: int) {
    && |took| <= |jobs|
    && (names == {} <==> LastOf(took).None?)
    && (LastOf(took).Some? ==> hi == jobs[LastOf(took).value].End())
  }

  lemma EndsAtGrows(
    jobs: seq<Increment>, took: seq<bool>, before: set<Name>, was: int, after: set<Name>, hi: int, last: bool)
    requires |took| < |jobs| && EndsAt(jobs, took, before, was) && before <= after
    requires if last then after != {} && hi == jobs[|took|].End() else after == before && hi == was
    ensures EndsAt(jobs, took + [last], after, hi)
  {
    LastOfGrows(took, last);
  }

  /** The last position at which something happened. */
  ghost function LastOf(took: seq<bool>): (r: Option<nat>)
    ensures r.Some? ==> r.value < |took|
  {
    if |took| == 0 then None
    else if took[|took| - 1] then Some(|took| - 1)
    else LastOf(took[..|took| - 1])
  }

  lemma LastOfGrows(took: seq<bool>, last: bool)
    ensures LastOf(took + [last]) == if last then Some(|took|) else LastOf(took)
  {
    assert (took + [last])[..|took|] == took;
  }

  /** Every span of a list belongs to one of its generations. */
  lemma {:induction false} SpanHasGeneration(gens: seq<Generation>, nodeId: string, i: nat)
    requires i < |SpansOf(gens, nodeId)|
    ensures exists k | 0 <= k < |gens| ::
      SpansOf(gens, nodeId)[i] == Range(gens[k].manifest.start, gens[k].manifest.end)
  {
    var n := |gens| - 1;
    var front := SpansOf(gens[..n], nodeId);
    if i < |front| {
      SpanHasGeneration(gens[..n], nodeId, i);
      var k :| 0 <= k < n && front[i] == Range(gens[..n][k].manifest.start, gens[..n][k].manifest.end);
      assert gens[k] == gens[..n][k];
    } else {
      assert gens[n] == gens[|gens| - 1];
    }
  }

  ghost predicate SpansApart(gens: seq<Generation>) {
    forall j, k | 0 <= j < k < |gens| ::
      gens[j].manifest.end <= gens[k].manifest.start || gens[k].manifest.end <= gens[j].manifest.start
  }

  /** A span that keeps clear of all others holds no instant one of them holds. */
  lemma OthersAreClear(front: seq<Generation>, g: Generation, nodeId: string, t: int)
    requires forall k | 0 <= k < |front| ::
      front[k].manifest.end <= g.manifest.start || g.manifest.end <= front[k].manifest.start
    requires g.manifest.start <= t < g.manifest.end
    ensures Cover(SpansOf(front, nodeId), t) == 0
  {
    var spans := SpansOf(front, nodeId);
    forall i | 0 <= i < |spans|
      ensures !Holds(spans[i], t)
    {
      SpanHasGeneration(front, nodeId, i);
    }
    CoverZero(spans, t);
  }

  lemma {:induction false} SpansApartCoverOnce(gens: seq<Generation>, nodeId: string, t: int)
    requires SpansApart(gens)
    ensures Cover(SpansOf(gens, nodeId), t) <= 1
  {
    if |gens| > 0 {
      var n := |gens| - 1;
      var front, g := gens[..n], gens[n];
      assert forall k | 0 <= k < |front| :: front[k] == gens[k];
      SpansApartCoverOnce(front, nodeId, t);
      var span := Range(g.manifest.start, g.manifest.end);
      CoverAppend(SpansOf(front, nodeId), span, t);
      if Holds(span, t) {
        OthersAreClear(front, g, nodeId, t);
      }
    }
  }

  /**
   Writer and reader together: whatever run of exports filled the namespace, the reader accepts it, in whatever order
   it lists the directory: every manifest passes, no payload is spoiled, and no two generations overlap.
   */
  lemma ListingApart(names: set<Name>, listing: seq<Name>, gens: seq<Generation>)
    requires Apart(names) && |listing| == |gens|
    requires forall i | 0 <= i < |listing| ::
      listing[i] in names && listing[i].start == gens[i].manifest.start && listing[i].end == gens[i].manifest.end
    requires forall i, j | 0 <= i < j < |listing| :: listing[i] != listing[j]
    ensures SpansApart(gens)
  {
    forall j, k | 0 <= j < k < |gens|
      ensures gens[j].manifest.end <= gens[k].manifest.start || gens[k].manifest.end <= gens[j].manifest.start
    {
      assert !Overlaps(listing[j], listing[k]);
    }
  }

  lemma GoodHeader(codec: Codec, nodeId: string, name: Name, g: Generation)
    requires GoodGeneration(codec, nodeId, name, g)
    ensures ManifestOk(g) && Listed(g) && !Spoiled(codec, g)
    ensures name.start == g.manifest.start < name.end == g.manifest.end && name.end % DAY == 0
  {
    assert HeaderOk(g);
  }

  lemma NamespaceIsReadable(
      codec: Codec, nodeId: string, published: map<Name, Generation>, listing: seq<Name>, gens: seq<Generation>)
    requires GoodArchive(codec, nodeId, published)
    requires |listing| == |gens|
    requires forall i | 0 <= i < |listing| :: listing[i] in published && gens[i] == published[listing[i]]
    requires forall i, j | 0 <= i < j < |listing| :: listing[i] != listing[j]
    ensures ArchiveOk(gens) && Disjoint(gens)
    ensures forall k | 0 <= k < |gens| :: !Spoiled(codec, gens[k])
  {
    forall k | 0 <= k < |gens|
      ensures ManifestOk(gens[k]) && Listed(gens[k]) && !Spoiled(codec, gens[k])
      ensures listing[k].start == gens[k].manifest.start < listing[k].end == gens[k].manifest.end
    {
      assert Good(codec, nodeId)(listing[k], published[listing[k]]);
      GoodHeader(codec, nodeId, listing[k], gens[k]);
    }
    ListingApart(published.Keys, listing, gens);
    forall node, t
      ensures Cover(SpansOf(gens, node), t) <= 1
    {
      SpansApartCoverOnce(gens, node, t);
    }
  }

  lemma StartsAreProper(codec: Codec, nodeId: string, published: map<Name, Generation>)
    requires GoodArchive(codec, nodeId, published)
    ensures forall n | n in published :: n.start < n.end
  {
    forall n | n in published ensures n.start < n.end { assert Good(codec, nodeId)(n, published[n]); }
  }

  lemma LatestIsHi(names: set<Name>, lo: int, hi: int, latest: int)
    requires lo < hi && Gapless(names, lo, hi)
    requires forall n | n in names :: n.start < n.end <= latest
    requires exists n | n in names :: n.end == latest
    ensures latest == hi
  {
    var last :| last in names && last.end == latest;
    assert last.start <= latest - 1 < last.end;
    assert Archives(names, latest - 1);
    assert Archives(names, hi - 1);
    var n :| n in names && n.start <= hi - 1 < n.end;
  }

  /** The window that begins where the archive ends is not in it yet, and extends it without a gap. */
  lemma IncrementGrows(
    names: set<Name>, lo: int, hi: int, begin: int, end: int, first: int, last: int, resolution: Resolution)
    requires begin < end && begin % DAY == 0 && end % DAY == 0 && first == begin / DAY && last == end / DAY
    requires OneInterval(names, lo, hi) && (names != {} ==> begin == hi) && forall n | n in names :: n.end <= begin
    ensures WindowName(first, last, resolution) !in names
    ensures OneInterval(names + {WindowName(first, last, resolution)}, if names == {} then begin else lo, end)
  {
    var name := WindowName(first, last, resolution);
    assert name.start == begin && name.end == end;
    GaplessGrows(names, if names == {} then begin else lo, begin, name);
  }

  lemma GaplessGrows(names: set<Name>, lo: int, hi: int, next: Name)
    requires next.start == hi < next.end
    requires OneInterval(names, lo, hi) && (names == {} ==> lo == hi)
    ensures Gapless(names + {next}, lo, next.end)
  {
    var all := names + {next};
    forall t
      ensures Archives(all, t) <==> lo <= t < next.end
    {
      assert names != {} ==> (Archives(names, t) <==> lo <= t < hi);
      if hi <= t < next.end {
        assert next in all;
      } else if Archives(names, t) {
        var n :| n in names && n.start <= t < n.end;
        assert n in all;
      } else {
        assert forall n | n in all :: n in names || n == next;
      }
    }
  }

  // ---------------------------------------------------------------- reaching one generation too many

  /** A node without any usage. */
  function NoUsage(): Window -> Answer {
    w => Answer(false, [])
  }

  /** The generation of one day without usage is within the size limits. */
  ghost predicate DayFits(site: Site, nodeId: string, d: int) {
    SizesOk(site, GenerationOf(site, nodeId, d, Daily, [[]]))
  }

  ghost predicate DaysFit(site: Site, nodeId: string) {
    forall d :: DayFits(site, nodeId, d)
  }

  lemma NoUsageIsAnswered(d: int)
    ensures Answered(NoUsage(), d, d + 1)
  {
    var w := Window(d, d + 1);
    assert Months(d, d + 1) == [w] + Months(d + 1, d + 1);
    assert Months(d, d + 1) == [w] && [w][1..] == [];
    assert Leaves(Truncation(NoUsage()), w) == Some([w]);
  }

  lemma {:induction false} NoUsageRecords(batches: seq<Window>)
    ensures RecordsOf(NoUsage(), batches) == []
  {
    if |batches| > 0 { NoUsageRecords(batches[..|batches| - 1]); }
  }

  lemma OneEmptyDay(slices: seq<seq<Sample>>)
    requires |slices| == 1 && Flatten(slices) == []
    ensures slices == [[]]
  {
    assert slices[..0] == [];
  }

  lemma NextDay(n: nat, names: set<Name>)
    requires n <= MAX_GENERATIONS && names == DayNames(n)
    ensures Finds(names, WindowName(n, n + 1, Daily)).Free?
    ensures DayNames(n + 1) == names + {WindowName(n, n + 1, Daily)}
  {
    LimitIsOvershot(n, MAX_GENERATIONS + n + 1);
    assert WindowName(n, n + 1, Daily) == DayName(n);
  }

  /** In calm weather a day without usage that nothing published overlaps is published. */
  method PublishDay(ns: Namespace, d: int)
    requires ns.Valid() && DayFits(ns.site, ns.nodeId, d) && ns.weather.Calm() && |ns.published| <= MAX_GENERATIONS
    requires Room(ns.published.Keys, WindowName(d, d + 1, Daily))
    modifies ns`published, ns`stale, ns.weather
    ensures ns.Valid() && ns.weather.Calm()
    ensures ns.published.Keys == old(ns.published.Keys) + {WindowName(d, d + 1, Daily)}
  {
    NoUsageIsAnswered(d);
    ghost var slices, batches;
    var s;
    s, slices, batches := ns.Export(NoUsage(), d, d + 1, Daily);
    NoUsageRecords(batches);
    OneEmptyDay(slices);
  }

  /** One name after the other, each finding its place free after those before it. */
  ghost predicate InTurn(steps: seq<set<Name>>) {
    && |steps| > 0 && steps[0] == {}
    && forall i | 0 <= i < |steps| - 1 :: FollowedBy(steps[i], i, steps[i + 1])
  }

  ghost predicate FollowedBy(names: set<Name>, d: int, next: set<Name>) {
    Finds(names, WindowName(d, d + 1, Daily)).Free? && next == names + {WindowName(d, d + 1, Daily)}
  }

  method PublishInTurn(ns: Namespace, n: nat, ghost steps: seq<set<Name>>)
    requires ns.Valid() && DaysFit(ns.site, ns.nodeId) && ns.weather.Calm() && ns.published == map[]
    requires InTurn(steps) && |steps| == n + 1
    modifies ns`published, ns`stale, ns.weather
    ensures ns.Valid() && ns.weather.Calm() && ns.published.Keys == steps[n]
  {
    for i := 0 to n
      invariant ns.Valid() && ns.weather.Calm() && ns.published.Keys == steps[i]
    {
      assert FollowedBy(steps[i], i, steps[i + 1]) && DayFits(ns.site, ns.nodeId, i);
      ApartIsFree(ns.site.codec, ns.nodeId, ns.published, WindowName(i, i + 1, Daily));
      PublishDay(ns, i);
    }
  }

  /** Day after day, up to one more than the limit. */
  lemma DaySteps(n: nat) returns (steps: seq<set<Name>>)
    requires n <= MAX_GENERATIONS + 1
    ensures |steps| == n + 1 && InTurn(steps) && |steps[n]| == n && (n > 0 ==> DayName(0) in steps[n])
  {
    steps := seq(n + 1, i requires 0 <= i <= n => DayNames(i));
    forall i | 0 <= i < n ensures FollowedBy(steps[i], i, steps[i + 1]) { NextDay(i, steps[i]); }
    DayNamesHold(n);
    if n > 0 { FirstDayIn(n); }
  }

  /** Exporting one day after the other publishes 4097 generations, and then the first one is not found again. */
  method Overshoot(site: Site, nodeId: string, full: nat) returns (ns: Namespace, again: Status)
    requires Sane(site.codec) && DaysFit(site, nodeId) && full == MAX_GENERATIONS + 1
    ensures fresh(ns) && ns.Valid() && |ns.published| == full && DayName(0) in ns.published
    ensures again.Failed?
  {
    var weather := new Weather([]);
    ns := new Namespace(site, nodeId, weather);
    ghost var steps := DaySteps(full);
    PublishInTurn(ns, full, steps);
    assert |ns.published.Keys| == |ns.published|;
    again := ns.ExportWindow(NoUsage(), 0, 1, Daily);
  }

  lemma FreeIff(names: set<Name>, name: Name)
    requires name.start < name.end && forall n | n in names :: n.start < n.end
    ensures Finds(names, name).Free? <==>
      |names| <= MAX_GENERATIONS && Room(names, name)
  {
  }

  lemma FindsMeans(names: set<Name>, name: Name)
    ensures Finds(names, name).TooMany? <==> |names| > MAX_GENERATIONS
    ensures Finds(names, name).Same? <==> |names| <= MAX_GENERATIONS && name in names
  {
  }

  lemma SameSize(published: map<Name, Generation>)
    ensures |published.Keys| == |published|
  {
  }

  /** The place of a window is free exactly if the namespace is within its limit and nothing in it overlaps. */
  lemma ApartIsFree(codec: Codec, nodeId: string, published: map<Name, Generation>, name: Name)
    requires GoodArchive(codec, nodeId, published) && name.start < name.end
    ensures |published.Keys| == |published|
    ensures Finds(published.Keys, name).Free? <==>
      |published| <= MAX_GENERATIONS && Room(published.Keys, name)
  {
    StartsAreProper(codec, nodeId, published);
    SameSize(published);
    FreeIff(published.Keys, name);
  }

  lemma {:induction false} FirstDayIn(n: nat)
    requires n > 0
    ensures DayName(0) in DayNames(n)
  {
    if n > 1 { FirstDayIn(n - 1); }
  }
}
