/**
 From the usage API to the reader: whatever happens between an export and a later load, the load returns for each day of
 the window the summary of exactly the samples answered for that day.
 */
module HistoryEndToEnd {
  import opened Basics
  import opened Options
  import opened Ranges
  import opened HistoryQuery
  import opened HistorySlices
  import opened HistoryReader
  import opened HistoryWriter
  import opened HistoryNamespace

  // ---------------------------------------------------------------- what is loaded of one generation

  lemma {:induction false} UsageContains(g: Generation, files: seq<Entry>, k: nat, begin: int, finish: int)
    requires (forall i | 0 <= i < |files| :: files[i].name in g.files) && k < |files| && Wanted(files[k], begin, finish)
    ensures
      Usage(g.nodeId, g.name, files[k].start, files[k].end, g.files[files[k].name]) in UsageOf(g, files, begin, finish)
  {
    if k < |files| - 1 { UsageContains(g, files[..|files| - 1], k, begin, finish); }
  }

  lemma {:induction false} AllUsageContains(gens: seq<Generation>, k: nat, begin: int, finish: int, u: Usage)
    requires (forall i | 0 <= i < |gens| :: Listed(gens[i])) && k < |gens| && Listed(gens[k])
    requires u in UsageOf(gens[k], gens[k].manifest.files, begin, finish)
    ensures u in AllUsage(gens, begin, finish)
  {
    if k < |gens| - 1 { AllUsageContains(gens[..|gens| - 1], k, begin, finish, u); }
  }

  /** What a load returns for day d, if `daily` are its samples. */
  function UsageOfDay(site: Site, nodeId: string, name: Name, d: int, daily: seq<Sample>): Usage {
    Usage(nodeId, name, d * DAY, (d + 1) * DAY,
          UsersPayload(nodeId, d * DAY, (d + 1) * DAY, site.summarize(daily)))
  }

  /** The generation contributes the summary of day d. */
  ghost predicate ContributesDay(
    site: Site, nodeId: string, daily: seq<Sample>, g: Generation, begin: int, finish: int, d: int)
    requires Listed(g)
  {
    UsageOfDay(site, nodeId, g.name, d, daily) in UsageOf(g, g.manifest.files, begin, finish)
  }

  /** A generation in the archive contributes the summary of each of its days in the window. */
  lemma DayIsLoaded(
    site: Site, nodeId: string, first: int, resolution: Resolution, slices: seq<seq<Sample>>, g: Generation, d: int,
    begin: int, finish: int)
    requires |slices| <= MAX_DAYS && g == GenerationOf(site, nodeId, first, resolution, slices) && Listed(g)
    requires first <= d < first + |slices| && InWindow(d, begin, finish)
    ensures ContributesDay(site, nodeId, slices[d - first], g, begin, finish, d)
  {
    DayIsWritten(site, nodeId, first, resolution, slices, g, d - first);
    EntryContributes(site, nodeId, slices[d - first], g, Place(d - first, Users), begin, finish, d);
  }

  /** The entry at position k is the users file of day d. */
  ghost predicate IsDay(site: Site, nodeId: string, daily: seq<Sample>, g: Generation, k: nat, d: int) {
    && k < |g.manifest.files| && g.nodeId == nodeId
    && var e := g.manifest.files[k];
       && e.kind.Users? && e.start == d * DAY && e.end == (d + 1) * DAY
       && e.name in g.files && g.files[e.name] == PayloadFor(site, nodeId, d, Users, daily)
  }

  lemma DayIsWritten(
    site: Site, nodeId: string, first: int, resolution: Resolution, slices: seq<seq<Sample>>, g: Generation, i: nat)
    requires i < |slices| <= MAX_DAYS && g == GenerationOf(site, nodeId, first, resolution, slices)
    ensures IsDay(site, nodeId, slices[i], g, Place(i, Users), first + i)
  {
    EntryAt(site, nodeId, first, slices, i, Users);
    var p := PayloadFor(site, nodeId, first + i, Users, slices[i]);
    FilesAt(site, nodeId, first, slices, i, Users, FileName(i, Users), p);
  }

  lemma EntryContributes(
    site: Site, nodeId: string, daily: seq<Sample>, g: Generation, k: nat, begin: int, finish: int, d: int)
    requires Listed(g) && IsDay(site, nodeId, daily, g, k, d) && InWindow(d, begin, finish)
    ensures ContributesDay(site, nodeId, daily, g, begin, finish, d)
  {
    UsageContains(g, g.manifest.files, k, begin, finish);
  }

  // ---------------------------------------------------------------- the whole way

  /** List the namespace in some order. */
  method ListAll(published: map<Name, Generation>) returns (listing: seq<Name>, gens: seq<Generation>)
    ensures |listing| == |gens|
    ensures forall i | 0 <= i < |listing| :: listing[i] in published && gens[i] == published[listing[i]]
    ensures forall i, j | 0 <= i < j < |listing| :: listing[i] != listing[j]
    ensures forall n | n in published :: n in listing
  {
    listing, gens := [], [];
    var todo := published.Keys;
    while todo != {}
      invariant todo <= published.Keys
      invariant |listing| == |gens|
      invariant forall i | 0 <= i < |listing| ::
        listing[i] in published && listing[i] !in todo && gens[i] == published[listing[i]]
      invariant forall i, j | 0 <= i < j < |listing| :: listing[i] != listing[j]
      invariant forall n | n in published && n !in todo :: n in listing
    {
      var n :| n in todo;
      listing, gens := listing + [n], gens + [published[n]];
      todo := todo - {n};
    }
  }

  /** Load a window of the namespace; one over its limit cannot be read. */
  method Load(ns: Namespace, begin: int, finish: int) returns (r: Option<seq<Usage>>, ghost gens: seq<Generation>)
    requires ns.Valid()
    ensures r.Some? <==> |ns.published| <= MAX_GENERATIONS
    ensures forall k | 0 <= k < |gens| :: Listed(gens[k])
    ensures forall n | n in ns.published :: ns.published[n] in gens
    ensures r.Some? ==> multiset(r.value) == multiset(AllUsage(gens, begin, finish))
    ensures r.Some? ==> forall nodeId, d :: CountDay(r.value, nodeId, d) <= 1
  {
    var listing, all := ListAll(ns.published);
    gens := all;
    NamespaceIsReadable(ns.site.codec, ns.nodeId, ns.published, listing, all);
    if |ns.published| > MAX_GENERATIONS { return None, gens; }
    r := LoadUserUsage(ns.site.codec, all, begin, finish);
  }

  /** The day is loaded once, with the summary of the samples answered for it. */
  ghost predicate LoadedAs(
    site: Site, nodeId: string, name: Name, d: int, answered: seq<Sample>, items: seq<Usage>)
  {
    && UsageOfDay(site, nodeId, name, d, OfDay(answered, d)) in items
    && CountDay(items, nodeId, d) == 1
  }

  /**
   Export a window, then let any run of other exports fail, crash or succeed, then load: an exported day of the window
   comes back exactly once, as the summary of exactly the samples the usage API answered for it.
   */
  method ExportThenLoad(
      ns: Namespace, api: Window -> Answer, first: int, last: int, resolution: Resolution, later: seq<Job>,
      begin: int, finish: int)
    returns (s: Status, r: Option<seq<Usage>>, ghost batches: seq<Window>)
    requires ns.Valid()
    modifies ns`published, ns`stale, ns.weather
    ensures ns.Valid() && (r.Some? <==> |ns.published| <= MAX_GENERATIONS)
    ensures s.Exported? ==> Tiles(batches, first, last)
    ensures s.Exported? && r.Some? ==> forall d | first <= d < last && InWindow(d, begin, finish) ::
      LoadedAs(ns.site, ns.nodeId, WindowName(first, last, resolution), d, RecordsOf(api, batches), r.value)
  {
    ghost var slices, gens;
    s, slices, batches := ns.Export(api, first, last, resolution);
    ghost var name := WindowName(first, last, resolution);
    var _ := ns.Run(later);
    r, gens := Load(ns, begin, finish);
    if s.Exported? && r.Some? {
      ghost var g := ns.published[name];
      DaysAreLoaded(ns.site, ns.nodeId, first, resolution, slices, g, begin, finish);
      DaysComeBack(ns.site, ns.nodeId, first, slices, g, gens, begin, finish, r.value);
    }
  }

  /** Each day of the window is among what the generation contributes. */
  ghost predicate Contributes(
    site: Site, nodeId: string, first: int, slices: seq<seq<Sample>>, g: Generation, begin: int, finish: int)
    requires Listed(g)
  {
    forall d | first <= d < first + |slices| && InWindow(d, begin, finish) ::
      ContributesDay(site, nodeId, slices[d - first], g, begin, finish, d)
  }

  lemma DaysAreLoaded(
    site: Site, nodeId: string, first: int, resolution: Resolution, slices: seq<seq<Sample>>, g: Generation,
    begin: int, finish: int)
    requires |slices| <= MAX_DAYS && g == GenerationOf(site, nodeId, first, resolution, slices) && Listed(g)
    ensures Contributes(site, nodeId, first, slices, g, begin, finish)
  {
    forall d | first <= d < first + |slices| && InWindow(d, begin, finish)
      ensures ContributesDay(site, nodeId, slices[d - first], g, begin, finish, d)
    {
      DayIsLoaded(site, nodeId, first, resolution, slices, g, d, begin, finish);
    }
  }

  lemma DaysComeBack(
    site: Site, nodeId: string, first: int, slices: seq<seq<Sample>>, g: Generation, gens: seq<Generation>,
    begin: int, finish: int, items: seq<Usage>)
    requires DayByDay(first, slices)
    requires (forall k | 0 <= k < |gens| :: Listed(gens[k])) && g in gens && Listed(g)
    requires Contributes(site, nodeId, first, slices, g, begin, finish)
    requires multiset(items) == multiset(AllUsage(gens, begin, finish))
    requires forall d :: CountDay(items, nodeId, d) <= 1
    ensures forall d | first <= d < first + |slices| && InWindow(d, begin, finish) ::
      LoadedAs(site, nodeId, g.name, d, Flatten(slices), items)
  {
    forall d | first <= d < first + |slices| && InWindow(d, begin, finish)
      ensures LoadedAs(site, nodeId, g.name, d, Flatten(slices), items)
    {
      DayComesBack(site, nodeId, first, slices, g, gens, d, begin, finish, items);
    }
  }

  lemma DayComesBack(
    site: Site, nodeId: string, first: int, slices: seq<seq<Sample>>, g: Generation, gens: seq<Generation>, d: int,
    begin: int, finish: int, items: seq<Usage>)
    requires DayByDay(first, slices) && first <= d < first + |slices|
    requires (forall k | 0 <= k < |gens| :: Listed(gens[k])) && g in gens && Listed(g)
    requires ContributesDay(site, nodeId, slices[d - first], g, begin, finish, d)
    requires multiset(items) == multiset(AllUsage(gens, begin, finish)) && CountDay(items, nodeId, d) <= 1
    ensures LoadedAs(site, nodeId, g.name, d, Flatten(slices), items)
  {
    SliceIsOfDay(first, slices, d);
    IsReturned(gens, g, begin, finish, UsageOfDay(site, nodeId, g.name, d, slices[d - first]), d, items);
  }

  /** What one generation of the archive contributes is in the result, and counted there. */
  lemma IsReturned(
    gens: seq<Generation>, g: Generation, begin: int, finish: int, u: Usage, d: int, items: seq<Usage>)
    requires (forall k | 0 <= k < |gens| :: Listed(gens[k])) && g in gens && Listed(g)
    requires u in UsageOf(g, g.manifest.files, begin, finish) && u.start == d * DAY && u.end == (d + 1) * DAY
    requires multiset(items) == multiset(AllUsage(gens, begin, finish))
    ensures u in items && CountDay(items, u.nodeId, d) >= 1
  {
    var k :| 0 <= k < |gens| && gens[k] == g;
    AllUsageContains(gens, k, begin, finish, u);
    assert u in multiset(items);
    CountsWhatItHolds(items, u, u.nodeId, d);
  }

  lemma {:induction false} CountsWhatItHolds(items: seq<Usage>, u: Usage, nodeId: string, d: int)
    requires u in items && u.nodeId == nodeId && u.start == d * DAY && u.end == (d + 1) * DAY
    ensures CountDay(items, nodeId, d) >= 1
  {
    if items[|items| - 1] != u { CountsWhatItHolds(items[..|items| - 1], u, nodeId, d); }
  }
}
