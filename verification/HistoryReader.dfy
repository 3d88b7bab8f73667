/**
 Reading the immutable archive: the checks on a generation's manifest, the check that generations of a node do not
 overlap, and the selection of the archived user usage for a window.
 */
module HistoryReader {
  import opened Options
  import opened Basics
  import opened Ranges
  import opened HistorySlices

  const MAX_FILES := 8192
  const MAX_GENERATIONS := 4096
  const MAX_COMPRESSED := 64 * 1024 * 1024

  datatype Resolution = Minutes5 | Minutes10 | Hourly | Daily

  function Seconds(resolution: Resolution): nat {
    match resolution
    case Minutes5 => 300
    case Minutes10 => 600
    case Hourly => 3600
    case Daily => 86400
  }

  datatype Kind = Users | Samples

  datatype Entry = Entry(name: string, kind: Kind, start: int, end: int, records: nat, bytes: nat, digest: string)

  /** A generation's directory name spells its range and resolution. */
  datatype Name = Name(start: int, end: int, resolution: Resolution)

  datatype Manifest = Manifest(
    generation: Name, nodeId: string, start: int, end: int, resolution: Resolution, seconds: nat, files: seq<Entry>)

  datatype Payload =
    | UsersPayload(nodeId: string, start: int, end: int, users: seq<string>)
    | SamplesPayload(nodeId: string, start: int, end: int, records: seq<Sample>)

  datatype Generation = Generation(nodeId: string, name: Name, manifest: Manifest, files: map<string, Payload>)

  /** The compressed size and the checksum of an encoded payload. */
  datatype Codec = Codec(size: Payload -> nat, digest: Payload -> string)

  // ---------------------------------------------------------------- file names

  predicate Digits(s: string) {
    forall i | 0 <= i < |s| :: '0' <= s[i] <= '9'
  }

  predicate Hex(s: string) {
    |s| == 64 && forall i | 0 <= i < |s| :: '0' <= s[i] <= '9' || 'a' <= s[i] <= 'f'
  }

  function Suffix(kind: Kind): string {
    if kind.Users? then "-users.json.gz" else "-samples.json.gz"
  }

  /** The payload name pattern: "day-", five digits, and the suffix of one of the two kinds. */
  predicate PayloadName(name: string) {
    && |name| >= 9 && name[..4] == "day-" && Digits(name[4..9])
    && (name[9..] == Suffix(Users) || name[9..] == Suffix(Samples))
  }

  /** A name the reader accepts never leaves the generation's directory. */
  lemma PayloadNameIsPlain(name: string)
    requires PayloadName(name)
    ensures '/' !in name && '\\' !in name && name[0] == 'd' && |name| <= 29
  {
    var a, b, c := name[..4], name[4..9], name[9..];
    assert name == a + b + c;
    assert |Suffix(Users)| == 14 && |Suffix(Samples)| == 16;
    assert '/' !in a && '\\' !in a;
    assert '/' !in Suffix(Users) && '\\' !in Suffix(Users);
    assert '/' !in Suffix(Samples) && '\\' !in Suffix(Samples);
    forall i | 0 <= i < |b| ensures b[i] != '/' && b[i] != '\\' {
      assert '0' <= b[i] <= '9';
    }
  }

  // ---------------------------------------------------------------- one generation

  predicate EntryOk(e: Entry) {
    && PayloadName(e.name) && e.name[9..] == Suffix(e.kind)
    && Hex(e.digest)
    && 1 <= e.bytes <= MAX_COMPRESSED
    && e.start < e.end
  }

  function RangesOf(files: seq<Entry>, kind: Kind): seq<Range> {
    if |files| == 0 then []
    else
      var front := RangesOf(files[..|files| - 1], kind);
      var e := files[|files| - 1];
      if e.kind == kind then front + [Range(e.start, e.end)] else front
  }

  /** The entries of either kind are exactly the days of the range, each once. */
  ghost predicate Tiled(files: seq<Entry>, start: int, end: int) {
    exists n: nat | n > 0 ::
      && end == start + n * DAY
      && multiset(RangesOf(files, Users)) == multiset(DayTiles(start, n))
      && multiset(RangesOf(files, Samples)) == multiset(DayTiles(start, n))
  }

  /** The walk of the cursor: it gets through exactly when the ranges are the days from `start` to `end`. */
  method WalkDays(days: seq<Range>, start: int, end: int) returns (ok: bool)
    ensures ok <==> days == DayTiles(start, |days|) && end == start + |days| * DAY
  {
    var cursor := start;
    for i := 0 to |days|
      invariant cursor == start + i * DAY
      invariant forall k | 0 <= k < i :: days[k] == Range(start + k * DAY, start + (k + 1) * DAY)
    {
      if days[i].start != cursor || days[i].end - days[i].start != DAY {
        assert DayTiles(start, |days|)[i] == Range(start + i * DAY, start + (i + 1) * DAY);
        return false;
      }
      cursor := days[i].end;
    }
    return cursor == end;
  }

  /** `_validate_chunk_coverage`: sort either kind's ranges, compare them, and walk a cursor over them. */
  method CoversDaily(files: seq<Entry>, start: int, end: int) returns (ok: bool)
    ensures ok <==> Tiled(files, start, end)
  {
    var users, samples := Sort(RangesOf(files, Users)), Sort(RangesOf(files, Samples));
    TiledSorts(files, start, end);
    if users != samples || |users| == 0 {
      return false;
    }
    ok := WalkDays(users, start, end);
  }

  /** Sorted, the ranges of either kind of a tiled list, and of no other, are the days in order. */
  lemma TiledSorts(files: seq<Entry>, start: int, end: int)
    ensures var users := Sort(RangesOf(files, Users));
      Tiled(files, start, end) <==>
      && users == Sort(RangesOf(files, Samples)) && |users| > 0
      && users == DayTiles(start, |users|) && end == start + |users| * DAY
  {
    var users, samples := Sort(RangesOf(files, Users)), Sort(RangesOf(files, Samples));
    SortSorts(RangesOf(files, Users));
    SortSorts(RangesOf(files, Samples));
    if Tiled(files, start, end) {
      var n: nat :| n > 0 && end == start + n * DAY
                    && multiset(RangesOf(files, Users)) == multiset(DayTiles(start, n))
                    && multiset(RangesOf(files, Samples)) == multiset(DayTiles(start, n));
      DayTilesSorted(start, n);
      SortedUnique(users, DayTiles(start, n));
      SortedUnique(samples, DayTiles(start, n));
    }
  }

  /** Every listed file is in the directory. */
  ghost predicate Listed(g: Generation) {
    forall i | 0 <= i < |g.manifest.files| :: g.manifest.files[i].name in g.files
  }

  ghost predicate EntriesOk(m: Manifest) {
    forall i | 0 <= i < |m.files| ::
      EntryOk(m.files[i]) && m.start <= m.files[i].start && m.files[i].end <= m.end
  }

  ghost predicate NamesDistinct(files: seq<Entry>) {
    forall i, j | 0 <= i < j < |files| :: files[i].name != files[j].name
  }

  ghost predicate HeaderOk(g: Generation) {
    var m := g.manifest;
    && m.generation == g.name && m.nodeId == g.nodeId
    && m.start % DAY == 0 && m.end % DAY == 0
    && m.seconds == Seconds(m.resolution)
    && g.name == Name(m.start, m.end, m.resolution)
  }

  /** Every structural check of `_read_manifest` on the directory `name` of node `nodeId`. */
  ghost predicate ManifestOk(g: Generation) {
    var m := g.manifest;
    && HeaderOk(g) && m.start < m.end
    && 1 <= |m.files| <= MAX_FILES
    && EntriesOk(m) && NamesDistinct(m.files)
    && Tiled(m.files, m.start, m.end)
    && Listed(g) && NothingElse(g)
  }

  /** An accepted manifest says what the directory is called and whose it is, in the resolution's own seconds. */
  lemma ManifestMeans(g: Generation)
    requires ManifestOk(g)
    ensures g.manifest.nodeId == g.nodeId && g.manifest.generation == g.name
    ensures g.name.start == g.manifest.start < g.manifest.end == g.name.end
    ensures g.name.resolution == g.manifest.resolution
    ensures g.manifest.seconds ==
      (match g.name.resolution case Minutes5 => 300 case Minutes10 => 600 case Hourly => 3600 case Daily => 86400)
    ensures 1 <= |g.manifest.files| <= 8192
    ensures forall i | 0 <= i < |g.manifest.files| ::
      var e := g.manifest.files[i];
      && e.name in g.files && g.manifest.start <= e.start < e.end <= g.manifest.end
      && e.name[9..] == (if e.kind.Users? then "-users.json.gz" else "-samples.json.gz")
      && |e.digest| == 64 && 1 <= e.bytes <= 67108864
  {
    assert HeaderOk(g) && EntriesOk(g.manifest) && Listed(g);
    forall i | 0 <= i < |g.manifest.files|
      ensures EntryOk(g.manifest.files[i]) && g.manifest.files[i].name in g.files
      ensures g.manifest.start <= g.manifest.files[i].start && g.manifest.files[i].end <= g.manifest.end
    {
    }
  }

  /** The directory holds no file that is not listed. */
  ghost predicate NothingElse(g: Generation) {
    forall name | name in g.files :: exists i | 0 <= i < |g.manifest.files| :: g.manifest.files[i].name == name
  }

  /** `_read_payload` and `_validate_public_payload` on one listed file. */
  predicate PayloadOk(codec: Codec, g: Generation, e: Entry) {
    && e.name in g.files
    && var p := g.files[e.name];
       && codec.size(p) == e.bytes && codec.digest(p) == e.digest
       && p.UsersPayload? == e.kind.Users?
       && e.records == (if p.UsersPayload? then |p.users| else |p.records|)
       && p.nodeId == g.nodeId && p.start == e.start && p.end == e.end
  }

  // ---------------------------------------------------------------- several generations

  function SpansOf(gens: seq<Generation>, nodeId: string): seq<Range> {
    if |gens| == 0 then []
    else
      var front := SpansOf(gens[..|gens| - 1], nodeId);
      var g := gens[|gens| - 1];
      if g.nodeId == nodeId then front + [Range(g.manifest.start, g.manifest.end)] else front
  }

  lemma {:induction false} SpansNonEmpty(gens: seq<Generation>, nodeId: string)
    requires forall i | 0 <= i < |gens| :: gens[i].manifest.start < gens[i].manifest.end
    ensures NonEmpty(SpansOf(gens, nodeId))
  {
    if |gens| > 0 { SpansNonEmpty(gens[..|gens| - 1], nodeId); }
  }

  lemma {:induction false} SpansOfStranger(gens: seq<Generation>, nodeId: string)
    requires forall i | 0 <= i < |gens| :: gens[i].nodeId != nodeId
    ensures SpansOf(gens, nodeId) == []
  {
    if |gens| > 0 { SpansOfStranger(gens[..|gens| - 1], nodeId); }
  }

  /** No instant belongs to two generations of one node. */
  ghost predicate Disjoint(gens: seq<Generation>) {
    forall nodeId, t :: Cover(SpansOf(gens, nodeId), t) <= 1
  }

  /** `_validate_non_overlapping`: per node, sort the generations and compare neighbours only. */
  method NonOverlapping(gens: seq<Generation>) returns (ok: bool)
    requires forall i | 0 <= i < |gens| :: gens[i].manifest.start < gens[i].manifest.end
    ensures ok <==> Disjoint(gens)
  {
    var nodes := set i | 0 <= i < |gens| :: gens[i].nodeId;
    var todo := nodes;
    while todo != {}
      invariant todo <= nodes
      invariant forall nodeId | nodeId in nodes && nodeId !in todo :: forall t :: Cover(SpansOf(gens, nodeId), t) <= 1
    {
      var nodeId :| nodeId in todo;
      SpansNonEmpty(gens, nodeId);
      NeighboursDecide(SpansOf(gens, nodeId));
      if !NeighboursApart(Sort(SpansOf(gens, nodeId))) {
        return false;
      }
      todo := todo - {nodeId};
    }
    forall nodeId, t
      ensures Cover(SpansOf(gens, nodeId), t) <= 1
    {
      if nodeId !in nodes {
        SpansOfStranger(gens, nodeId);
      }
    }
    return true;
  }

  // ---------------------------------------------------------------- user usage for a window

  datatype Usage = Usage(nodeId: string, generation: Name, start: int, end: int, payload: Payload)

  predicate Wanted(e: Entry, begin: int, finish: int) {
    e.kind.Users? && begin <= e.start && e.end <= finish
  }

  function UsageOf(g: Generation, files: seq<Entry>, begin: int, finish: int): seq<Usage>
    requires forall i | 0 <= i < |files| :: files[i].name in g.files
  {
    if |files| == 0 then []
    else
      var e := files[|files| - 1];
      var front := UsageOf(g, files[..|files| - 1], begin, finish);
      if Wanted(e, begin, finish)
      then front + [Usage(g.nodeId, g.name, e.start, e.end, g.files[e.name])]
      else front
  }

  function AllUsage(gens: seq<Generation>, begin: int, finish: int): seq<Usage>
    requires forall k | 0 <= k < |gens| :: Listed(gens[k])
  {
    if |gens| == 0 then []
    else
      var g := gens[|gens| - 1];
      assert Listed(g);
      AllUsage(gens[..|gens| - 1], begin, finish) + UsageOf(g, g.manifest.files, begin, finish)
  }

  /** How many of the items are about this node and this day. */
  function CountDay(items: seq<Usage>, nodeId: string, d: int): nat {
    if |items| == 0 then 0
    else
      var u := items[|items| - 1];
      CountDay(items[..|items| - 1], nodeId, d) +
      if u.nodeId == nodeId && u.start == d * DAY && u.end == (d + 1) * DAY then 1 else 0
  }

  lemma {:induction false} CountDayJoin(a: seq<Usage>, b: seq<Usage>, nodeId: string, d: int)
    ensures CountDay(a + b, nodeId, d) == CountDay(a, nodeId, d) + CountDay(b, nodeId, d)
  {
    if |b| == 0 {
      assert a + b == a;
    } else {
      var n := |b| - 1;
      assert (a + b)[..|a + b| - 1] == a + b[..n];
      CountDayJoin(a, b[..n], nodeId, d);
    }
  }

  lemma CountDayLast(items: seq<Usage>, nodeId: string, d: int)
    requires |items| > 0
    ensures CountDay(items, nodeId, d) ==
      CountDay(items[..|items| - 1], nodeId, d) + CountDay([items[|items| - 1]], nodeId, d)
  {
  }

  predicate InWindow(d: int, begin: int, finish: int) {
    begin <= d * DAY && (d + 1) * DAY <= finish
  }

  lemma RangesCountLast(files: seq<Entry>, kind: Kind, r: Range)
    requires |files| > 0
    ensures var e := files[|files| - 1];
      multiset(RangesOf(files, kind))[r] ==
      multiset(RangesOf(files[..|files| - 1], kind))[r] + if e.kind == kind && Range(e.start, e.end) == r then 1 else 0
  {
  }

  lemma CountOne(u: Usage, nodeId: string, d: int)
    ensures CountDay([u], nodeId, d) ==
      if u.nodeId == nodeId && u.start == d * DAY && u.end == (d + 1) * DAY then 1 else 0
  {
    assert [u][..0] == [];
  }

  lemma UsageCountLast(g: Generation, files: seq<Entry>, begin: int, finish: int, nodeId: string, d: int)
    requires |files| > 0 && forall i | 0 <= i < |files| :: files[i].name in g.files
    ensures var e := files[|files| - 1];
      CountDay(UsageOf(g, files, begin, finish), nodeId, d) ==
      CountDay(UsageOf(g, files[..|files| - 1], begin, finish), nodeId, d) +
      if Wanted(e, begin, finish) && g.nodeId == nodeId && e.start == d * DAY && e.end == (d + 1) * DAY then 1 else 0
  {
    var e := files[|files| - 1];
    var u := Usage(g.nodeId, g.name, e.start, e.end, g.files[e.name]);
    if Wanted(e, begin, finish) {
      CountDayJoin(UsageOf(g, files[..|files| - 1], begin, finish), [u], nodeId, d);
      CountOne(u, nodeId, d);
    }
  }

  /** One generation contributes a day as often as its user entries list it, if the day is in the window. */
  lemma {:induction false} UsageOfCount(
      g: Generation, files: seq<Entry>, begin: int, finish: int, nodeId: string, d: int)
    requires forall i | 0 <= i < |files| :: files[i].name in g.files
    ensures CountDay(UsageOf(g, files, begin, finish), nodeId, d) ==
      if g.nodeId == nodeId && InWindow(d, begin, finish)
      then multiset(RangesOf(files, Users))[Range(d * DAY, d * DAY + DAY)]
      else 0
  {
    if |files| > 0 {
      UsageOfCount(g, files[..|files| - 1], begin, finish, nodeId, d);
      UsageCountLast(g, files, begin, finish, nodeId, d);
      RangesCountLast(files, Users, Range(d * DAY, d * DAY + DAY));
    }
  }

  /** A tiled list of entries lists a day once if its range holds the day, and otherwise not at all. */
  lemma TiledCount(files: seq<Entry>, start: int, end: int, d: int)
    requires Tiled(files, start, end) && start % DAY == 0
    ensures multiset(RangesOf(files, Users))[Range(d * DAY, d * DAY + DAY)] == if start <= d * DAY < end then 1 else 0
  {
    var n := TiledBy(files, start, end);
    var t := d * DAY;
    IsMidnight(d);
    DayTilesCount(start, n, t);
  }

  lemma IsMidnight(d: int)
    ensures (d * DAY) % DAY == 0
  {
  }

  lemma TiledBy(files: seq<Entry>, start: int, end: int) returns (n: nat)
    requires Tiled(files, start, end)
    ensures end == start + n * DAY && multiset(RangesOf(files, Users)) == multiset(DayTiles(start, n))
  {
    n :| n > 0 && end == start + n * DAY
         && multiset(RangesOf(files, Users)) == multiset(DayTiles(start, n))
         && multiset(RangesOf(files, Samples)) == multiset(DayTiles(start, n));
  }

  lemma GenerationCount(g: Generation, begin: int, finish: int, nodeId: string, d: int)
    requires ManifestOk(g) && Listed(g)
    ensures CountDay(UsageOf(g, g.manifest.files, begin, finish), nodeId, d) ==
      if g.nodeId == nodeId && InWindow(d, begin, finish) && g.manifest.start <= d * DAY < g.manifest.end then 1 else 0
  {
    UsageOfCount(g, g.manifest.files, begin, finish, nodeId, d);
    assert HeaderOk(g);
    TiledCount(g.manifest.files, g.manifest.start, g.manifest.end, d);
  }

  /** The manifest checks let every generation through. */
  ghost predicate ArchiveOk(gens: seq<Generation>) {
    forall k | 0 <= k < |gens| :: ManifestOk(gens[k]) && Listed(gens[k])
  }

  lemma ArchiveRangesProper(gens: seq<Generation>)
    requires ArchiveOk(gens)
    ensures forall i | 0 <= i < |gens| :: gens[i].manifest.start < gens[i].manifest.end
  {
    forall i | 0 <= i < |gens|
      ensures gens[i].manifest.start < gens[i].manifest.end
    {
      assert ManifestOk(gens[i]);
    }
  }

  lemma CoverAppend(s: seq<Range>, r: Range, t: int)
    ensures Cover(s + [r], t) == Cover(s, t) + if Holds(r, t) then 1 else 0
  {
    assert (s + [r])[..|s|] == s;
  }

  lemma {:induction false} AllUsageCount(gens: seq<Generation>, begin: int, finish: int, nodeId: string, d: int)
    requires ArchiveOk(gens)
    ensures CountDay(AllUsage(gens, begin, finish), nodeId, d) ==
      if InWindow(d, begin, finish) then Cover(SpansOf(gens, nodeId), d * DAY) else 0
  {
    if |gens| > 0 {
      var n := |gens| - 1;
      var g := gens[n];
      assert ManifestOk(g) && Listed(g);
      AllUsageCount(gens[..n], begin, finish, nodeId, d);
      CountDayJoin(AllUsage(gens[..n], begin, finish), UsageOf(g, g.manifest.files, begin, finish), nodeId, d);
      GenerationCount(g, begin, finish, nodeId, d);
      CoverAppend(SpansOf(gens[..n], nodeId), Range(g.manifest.start, g.manifest.end), d * DAY);
    }
  }

  /** Some generation of the node holds the day. */
  ghost predicate Archived(gens: seq<Generation>, nodeId: string, d: int) {
    exists k | 0 <= k < |gens| :: gens[k].nodeId == nodeId && gens[k].manifest.start <= d * DAY < gens[k].manifest.end
  }

  lemma {:induction false} ArchivedIsCovered(gens: seq<Generation>, nodeId: string, d: int)
    ensures Archived(gens, nodeId, d) <==> Cover(SpansOf(gens, nodeId), d * DAY) > 0
  {
    if |gens| > 0 {
      var n := |gens| - 1;
      ArchivedIsCovered(gens[..n], nodeId, d);
      var g := gens[n];
      var span := Range(g.manifest.start, g.manifest.end);
      CoverAppend(SpansOf(gens[..n], nodeId), span, d * DAY);
      if Archived(gens[..n], nodeId, d) {
        var k :| 0 <= k < n && gens[..n][k].nodeId == nodeId
                 && gens[..n][k].manifest.start <= d * DAY < gens[..n][k].manifest.end;
        assert gens[k] == gens[..n][k];
      }
      if Archived(gens, nodeId, d) && !(g.nodeId == nodeId && Holds(span, d * DAY)) {
        var k :| 0 <= k < |gens| && gens[k].nodeId == nodeId
                 && gens[k].manifest.start <= d * DAY < gens[k].manifest.end;
        assert k < n;
        assert gens[..n][k] == gens[k];
      }
    }
  }

  /** Exactly one payload for a day that some generation covers, none for any other. */
  lemma OnePayloadPerDay(gens: seq<Generation>, begin: int, finish: int, nodeId: string, d: int)
    requires ArchiveOk(gens)
    requires Disjoint(gens)
    ensures CountDay(AllUsage(gens, begin, finish), nodeId, d) ==
      if InWindow(d, begin, finish) && Archived(gens, nodeId, d) then 1 else 0
  {
    AllUsageCount(gens, begin, finish, nodeId, d);
    ArchivedIsCovered(gens, nodeId, d);
  }

  /** The user entries of one generation that lie in the window, each read and checked. */
  method LoadGeneration(codec: Codec, g: Generation, begin: int, finish: int) returns (r: Option<seq<Usage>>)
    requires Listed(g)
    ensures r.Some? ==> r.value == UsageOf(g, g.manifest.files, begin, finish)
    ensures r.None? <==> SpoiledWithin(codec, g, begin, finish)
  {
    var files := g.manifest.files;
    var items: seq<Usage> := [];
    for i := 0 to |files|
      invariant items == UsageOf(g, files[..i], begin, finish)
      invariant forall k | 0 <= k < i && Wanted(files[k], begin, finish) :: PayloadOk(codec, g, files[k])
    {
      var e := files[i];
      assert files[..i + 1][..i] == files[..i];
      if Wanted(e, begin, finish) {
        if !PayloadOk(codec, g, e) {
          return None;
        }
        items := items + [Usage(g.nodeId, g.name, e.start, e.end, g.files[e.name])];
      }
    }
    assert files[..|files|] == files;
    return Some(items);
  }

  /** Some listed payload does not match its entry. */
  ghost predicate Spoiled(codec: Codec, g: Generation) {
    exists i | 0 <= i < |g.manifest.files| :: !PayloadOk(codec, g, g.manifest.files[i])
  }

  /** Some user payload of the window does not match its entry. */
  ghost predicate SpoiledWithin(codec: Codec, g: Generation, begin: int, finish: int) {
    exists i | 0 <= i < |g.manifest.files| ::
      Wanted(g.manifest.files[i], begin, finish) && !PayloadOk(codec, g, g.manifest.files[i])
  }

  method CollectUsage(codec: Codec, gens: seq<Generation>, begin: int, finish: int) returns (r: Option<seq<Usage>>)
    requires forall k | 0 <= k < |gens| :: Listed(gens[k])
    ensures r.Some? ==> r.value == AllUsage(gens, begin, finish)
    ensures r.None? <==> exists k | 0 <= k < |gens| :: SpoiledWithin(codec, gens[k], begin, finish)
  {
    var items: seq<Usage> := [];
    for k := 0 to |gens|
      invariant items == AllUsage(gens[..k], begin, finish)
      invariant forall j | 0 <= j < k :: !SpoiledWithin(codec, gens[j], begin, finish)
    {
      var part := LoadGeneration(codec, gens[k], begin, finish);
      if part.None? { return None; }
      assert gens[..k + 1][..k] == gens[..k];
      items := items + part.value;
    }
    assert gens[..|gens|] == gens;
    return Some(items);
  }

  // ---------------------------------------------------------------- the order of the result

  /** Python's order of strings. */
  predicate TextLeq(a: string, b: string) {
    |a| == 0 || (|b| > 0 && (a[0] < b[0] || (a[0] == b[0] && TextLeq(a[1..], b[1..]))))
  }

  lemma {:induction false} TextLeqTotal(a: string, b: string)
    ensures TextLeq(a, b) || TextLeq(b, a)
  {
    if |a| > 0 && |b| > 0 && a[0] == b[0] { TextLeqTotal(a[1..], b[1..]); }
  }

  lemma {:induction false} TextLeqTransitive(a: string, b: string, c: string)
    requires TextLeq(a, b) && TextLeq(b, c)
    ensures TextLeq(a, c)
  {
    if |a| > 0 && a[0] == b[0] == c[0] { TextLeqTransitive(a[1..], b[1..], c[1..]); }
  }

  /** By day, then by node; no two results share both, so the generation never decides. */
  predicate Precedes(a: Usage, b: Usage) {
    a.start < b.start || (a.start == b.start && TextLeq(a.nodeId, b.nodeId))
  }

  ghost predicate InOrder(items: seq<Usage>) {
    forall i, j | 0 <= i < j < |items| :: Precedes(items[i], items[j])
  }

  function Inserted(x: Usage, items: seq<Usage>): seq<Usage> {
    if |items| == 0 || Precedes(items[|items| - 1], x) then items + [x]
    else Inserted(x, items[..|items| - 1]) + [items[|items| - 1]]
  }

  function Ordered(items: seq<Usage>): seq<Usage> {
    if |items| == 0 then [] else Inserted(items[|items| - 1], Ordered(items[..|items| - 1]))
  }

  lemma PrecedesTransitive(a: Usage, b: Usage, c: Usage)
    requires Precedes(a, b) && Precedes(b, c)
    ensures Precedes(a, c)
  {
    if a.start == b.start == c.start { TextLeqTransitive(a.nodeId, b.nodeId, c.nodeId); }
  }

  lemma {:induction false} InsertedKeeps(x: Usage, items: seq<Usage>)
    ensures multiset(Inserted(x, items)) == multiset(items) + multiset{x}
  {
    if |items| > 0 && !Precedes(items[|items| - 1], x) {
      InsertedKeeps(x, items[..|items| - 1]);
      SplitLast(items);
    }
  }

  lemma {:induction false} InsertedCounts(x: Usage, items: seq<Usage>, nodeId: string, d: int)
    ensures CountDay(Inserted(x, items), nodeId, d) == CountDay(items, nodeId, d) + CountDay([x], nodeId, d)
  {
    CountDayJoin(items, [x], nodeId, d);
    if |items| > 0 && !Precedes(items[|items| - 1], x) {
      var front, last := items[..|items| - 1], items[|items| - 1];
      InsertedCounts(x, front, nodeId, d);
      CountDayJoin(Inserted(x, front), [last], nodeId, d);
      CountDayLast(items, nodeId, d);
    }
  }

  lemma {:induction false} InsertedOrders(x: Usage, items: seq<Usage>)
    requires InOrder(items)
    ensures InOrder(Inserted(x, items))
    ensures forall i | 0 <= i < |Inserted(x, items)| :: Inserted(x, items)[i] == x || Inserted(x, items)[i] in items
  {
    if |items| > 0 {
      var n := |items| - 1;
      var last := items[n];
      if Precedes(last, x) {
        forall i | 0 <= i < n ensures Precedes(items[i], x) { PrecedesTransitive(items[i], last, x); }
      } else {
        InsertedOrders(x, items[..n]);
        TextLeqTotal(last.nodeId, x.nodeId);
        var inner := Inserted(x, items[..n]);
        forall i | 0 <= i < |inner| ensures Precedes(inner[i], last) {
          assert inner[i] == x || inner[i] in items[..n];
        }
      }
    }
  }

  /** Sorting the result keeps what is in it. */
  lemma {:induction false} OrderedKeeps(items: seq<Usage>)
    ensures multiset(Ordered(items)) == multiset(items) && InOrder(Ordered(items))
  {
    if |items| > 0 {
      var front, last := items[..|items| - 1], items[|items| - 1];
      OrderedKeeps(front);
      InsertedKeeps(last, Ordered(front));
      InsertedOrders(last, Ordered(front));
      SplitLast(items);
    }
  }

  lemma {:induction false} OrderedCounts(items: seq<Usage>, nodeId: string, d: int)
    ensures CountDay(Ordered(items), nodeId, d) == CountDay(items, nodeId, d)
  {
    if |items| > 0 {
      var front, last := items[..|items| - 1], items[|items| - 1];
      OrderedCounts(front, nodeId, d);
      InsertedCounts(last, Ordered(front), nodeId, d);
      CountDayLast(items, nodeId, d);
    }
  }

  /**
   `load_archived_user_usage` over the generations the manifest checks let through: it fails exactly if generations
   of a node overlap or a payload of the window does not match its entry, and otherwise returns, by day and node, every
   day of the window that is archived for a node exactly once, with the payload the entry lists.
   */
  method LoadUserUsage(codec: Codec, gens: seq<Generation>, begin: int, finish: int) returns (r: Option<seq<Usage>>)
    requires ArchiveOk(gens)
    ensures r.Some? ==>
      Disjoint(gens) && multiset(r.value) == multiset(AllUsage(gens, begin, finish)) && InOrder(r.value)
    ensures r.Some? ==> forall nodeId, d ::
      CountDay(r.value, nodeId, d) == if InWindow(d, begin, finish) && Archived(gens, nodeId, d) then 1 else 0
    ensures r.None? <==> !Disjoint(gens) || exists k | 0 <= k < |gens| :: SpoiledWithin(codec, gens[k], begin, finish)
  {
    ArchiveRangesProper(gens);
    var apart := NonOverlapping(gens);
    if !apart { return None; }
    var items := CollectUsage(codec, gens, begin, finish);
    if items.None? { return None; }
    OrderedKeeps(items.value);
    forall nodeId, d
      ensures CountDay(Ordered(items.value), nodeId, d) ==
        if InWindow(d, begin, finish) && Archived(gens, nodeId, d) then 1 else 0
    {
      OrderedCounts(items.value, nodeId, d);
      OnePayloadPerDay(gens, begin, finish, nodeId, d);
    }
    return Some(Ordered(items.value));
  }
}
