/**
 Writing one generation: the daily slices of a window become pairs of payload files and a manifest that lists them.
 Whatever the writer produces passes every check of the reader.
 */
module HistoryWriter {
  import opened Options
  import opened Basics
  import opened Ranges
  import opened HistoryQuery
  import opened HistorySlices
  import opened HistoryReader

  const MAX_DAYS := MAX_FILES / 2

  /** The encoder, the summary of samples by user, and the size of an encoded manifest. */
  datatype Site = Site(codec: Codec, summarize: seq<Sample> -> seq<string>, manifestSize: Manifest -> nat)

  /** Encoded payloads are never empty and SHA-256 digests are 64 hexadecimal digits. */
  ghost predicate Sane(codec: Codec) {
    forall p :: codec.size(p) >= 1 && Hex(codec.digest(p))
  }

  // ---------------------------------------------------------------- names

  function Digit(n: nat): char
    requires n < 10
  {
    ('0' as int + n) as char
  }

  function Pad5(i: nat): string
    requires i < 100000
  {
    [Digit(i / 10000), Digit(i / 1000 % 10), Digit(i / 100 % 10), Digit(i / 10 % 10), Digit(i % 10)]
  }

  function FileName(i: nat, kind: Kind): string
    requires i < 100000
  {
    "day-" + Pad5(i) + Suffix(kind)
  }

  lemma FileNameMatches(i: nat, kind: Kind)
    requires i < 100000
    ensures PayloadName(FileName(i, kind)) && FileName(i, kind)[9..] == Suffix(kind)
    ensures FileName(i, kind)[4..9] == Pad5(i)
  {
    var name := FileName(i, kind);
    assert name[..4] == "day-";
    assert name[4..9] == Pad5(i);
    assert name[9..] == Suffix(kind);
  }

  lemma Pad5Injective(i: nat, j: nat)
    requires i < 100000 && j < 100000 && Pad5(i) == Pad5(j)
    ensures i == j
  {
    var a, b := Pad5(i), Pad5(j);
    assert a[0] == b[0] && a[1] == b[1] && a[2] == b[2] && a[3] == b[3] && a[4] == b[4];
    assert Digit(i / 10000) == Digit(j / 10000) && Digit(i / 1000 % 10) == Digit(j / 1000 % 10);
    assert Digit(i / 100 % 10) == Digit(j / 100 % 10) && Digit(i / 10 % 10) == Digit(j / 10 % 10);
    DigitInjective(i / 10000, j / 10000);
    DigitInjective(i / 1000 % 10, j / 1000 % 10);
    DigitInjective(i / 100 % 10, j / 100 % 10);
    DigitInjective(i / 10 % 10, j / 10 % 10);
    DigitInjective(i % 10, j % 10);
    DigitsMakeUp(i);
    DigitsMakeUp(j);
  }

  lemma DigitInjective(m: nat, n: nat)
    requires m < 10 && n < 10 && Digit(m) == Digit(n)
    ensures m == n
  {
    assert ('0' as int + m) as char as int == '0' as int + m;
    assert ('0' as int + n) as char as int == '0' as int + n;
  }

  lemma DigitsMakeUp(i: nat)
    ensures i == i / 10000 * 10000 + i / 1000 % 10 * 1000 + i / 100 % 10 * 100 + i / 10 % 10 * 10 + i % 10
  {
    assert i / 100 == i / 10 / 10 && i / 1000 == i / 100 / 10 && i / 10000 == i / 1000 / 10;
  }

  lemma FileNameInjective(i: nat, k: Kind, j: nat, l: Kind)
    requires i < 100000 && j < 100000 && FileName(i, k) == FileName(j, l)
    ensures i == j && k == l
  {
    FileNameMatches(i, k);
    FileNameMatches(j, l);
    Pad5Injective(i, j);
    assert |Suffix(Users)| != |Suffix(Samples)|;
  }

  // ---------------------------------------------------------------- files

  /** The payload of either kind for day d. */
  function PayloadFor(site: Site, nodeId: string, d: int, kind: Kind, daily: seq<Sample>): Payload {
    if kind.Users? then UsersPayload(nodeId, d * DAY, (d + 1) * DAY, site.summarize(daily))
    else SamplesPayload(nodeId, d * DAY, (d + 1) * DAY, daily)
  }

  function EntryFor(site: Site, i: nat, kind: Kind, p: Payload): Entry
    requires i < 100000
  {
    Entry(FileName(i, kind), kind, p.start, p.end, if p.UsersPayload? then |p.users| else |p.records|,
          site.codec.size(p), site.codec.digest(p))
  }

  /** One kind of file's entries, day by day. */
  function DayEntries(site: Site, nodeId: string, first: int, slices: seq<seq<Sample>>, kind: Kind): (r: seq<Entry>)
    requires |slices| <= MAX_DAYS
    ensures |r| == |slices|
  {
    seq(|slices|, i requires 0 <= i < |slices| =>
          EntryFor(site, i, kind, PayloadFor(site, nodeId, first + i, kind, slices[i])))
  }

  function Interleave(us: seq<Entry>, vs: seq<Entry>): (r: seq<Entry>)
    requires |us| == |vs|
    ensures |r| == 2 * |us|
  {
    if |us| == 0 then []
    else Interleave(us[..|us| - 1], vs[..|vs| - 1]) + [us[|us| - 1], vs[|vs| - 1]]
  }

  /** The entry list: for each day the users file, then the samples file. */
  function Entries(site: Site, nodeId: string, first: int, slices: seq<seq<Sample>>): (r: seq<Entry>)
    requires |slices| <= MAX_DAYS
    ensures |r| == 2 * |slices|
  {
    Interleave(DayEntries(site, nodeId, first, slices, Users), DayEntries(site, nodeId, first, slices, Samples))
  }

  function Files(site: Site, nodeId: string, first: int, slices: seq<seq<Sample>>): map<string, Payload>
    requires |slices| <= MAX_DAYS
  {
    if |slices| == 0 then map[]
    else
      var n := |slices| - 1;
      Files(site, nodeId, first, slices[..n])
        [FileName(n, Users) := PayloadFor(site, nodeId, first + n, Users, slices[n])]
        [FileName(n, Samples) := PayloadFor(site, nodeId, first + n, Samples, slices[n])]
  }

  function GenerationOf(
      site: Site, nodeId: string, first: int, resolution: Resolution, slices: seq<seq<Sample>>): Generation
    requires |slices| <= MAX_DAYS
  {
    var start, end := first * DAY, (first + |slices|) * DAY;
    Generation(nodeId, Name(start, end, resolution),
               Manifest(Name(start, end, resolution), nodeId, start, end, resolution, Seconds(resolution),
                        Entries(site, nodeId, first, slices)),
               Files(site, nodeId, first, slices))
  }

  /** The encoder's and the manifest's size limits. */
  predicate SizesOk(site: Site, g: Generation) {
    && (forall i | 0 <= i < |g.manifest.files| :: g.manifest.files[i].bytes <= MAX_COMPRESSED)
    && site.manifestSize(g.manifest) <= 2 * 1024 * 1024
  }

  lemma {:induction false} InterleaveAt(us: seq<Entry>, vs: seq<Entry>, i: nat)
    requires |us| == |vs| && i < |us|
    ensures Interleave(us, vs)[2 * i] == us[i] && Interleave(us, vs)[2 * i + 1] == vs[i]
  {
    var n := |us| - 1;
    if i < n { InterleaveAt(us[..n], vs[..n], i); }
  }

  /** The place of a day's entry of one kind. */
  function Place(i: nat, kind: Kind): nat {
    if kind.Users? then 2 * i else 2 * i + 1
  }

  lemma DayEntryAt(site: Site, nodeId: string, first: int, slices: seq<seq<Sample>>, i: nat, kind: Kind)
    requires i < |slices| <= MAX_DAYS
    ensures DayEntries(site, nodeId, first, slices, kind)[i] ==
      EntryFor(site, i, kind, PayloadFor(site, nodeId, first + i, kind, slices[i]))
  {
  }

  lemma EntryOfKind(site: Site, nodeId: string, first: int, slices: seq<seq<Sample>>, i: nat, kind: Kind)
    requires i < |slices| <= MAX_DAYS
    ensures Entries(site, nodeId, first, slices)[Place(i, kind)] == DayEntries(site, nodeId, first, slices, kind)[i]
  {
    InterleaveAt(DayEntries(site, nodeId, first, slices, Users), DayEntries(site, nodeId, first, slices, Samples), i);
  }

  /** The entry at each position. */
  lemma EntryAt(site: Site, nodeId: string, first: int, slices: seq<seq<Sample>>, i: nat, kind: Kind)
    requires i < |slices| <= MAX_DAYS
    ensures Entries(site, nodeId, first, slices)[Place(i, kind)] ==
      EntryFor(site, i, kind, PayloadFor(site, nodeId, first + i, kind, slices[i]))
  {
    EntryOfKind(site, nodeId, first, slices, i, kind);
    DayEntryAt(site, nodeId, first, slices, i, kind);
  }

  /** Every position is that of some day's entry. */
  lemma PlaceOf(k: nat, n: nat) returns (i: nat, kind: Kind)
    requires k < 2 * n
    ensures k == Place(i, kind) && i < n
  {
    i, kind := k / 2, if k % 2 == 0 then Users else Samples;
  }

  lemma DistinctNames(i: nat, k: Kind, j: nat, l: Kind)
    requires i < 100000 && j < 100000 && (i != j || k != l)
    ensures FileName(i, k) != FileName(j, l)
  {
    if FileName(i, k) == FileName(j, l) { FileNameInjective(i, k, j, l); }
  }

  /** A file of an earlier day is still there after the last day's files are added. */
  lemma EarlierFileStays(
    site: Site, nodeId: string, first: int, front: seq<seq<Sample>>, slices: seq<seq<Sample>>, name: string, p: Payload)
    requires 1 <= |slices| <= MAX_DAYS && front == slices[..|slices| - 1]
    requires name != FileName(|front|, Users) && name != FileName(|front|, Samples)
    requires name in Files(site, nodeId, first, front) && Files(site, nodeId, first, front)[name] == p
    ensures name in Files(site, nodeId, first, slices) && Files(site, nodeId, first, slices)[name] == p
  {
  }

  lemma LastFileIsThere(site: Site, nodeId: string, first: int, slices: seq<seq<Sample>>, kind: Kind)
    requires 1 <= |slices| <= MAX_DAYS
    ensures var n, m := |slices| - 1, Files(site, nodeId, first, slices);
      FileName(n, kind) in m && m[FileName(n, kind)] == PayloadFor(site, nodeId, first + n, kind, slices[n])
  {
    DistinctNames(|slices| - 1, Users, |slices| - 1, Samples);
  }

  /** The name is that of neither file of the day. */
  predicate NotOfDay(name: string, n: nat)
    requires n < 100000
  {
    name != FileName(n, Users) && name != FileName(n, Samples)
  }

  lemma NameOfEarlierDay(i: nat, kind: Kind, n: nat)
    requires i < n < 100000
    ensures NotOfDay(FileName(i, kind), n)
  {
    DistinctNames(i, kind, n, Users);
    DistinctNames(i, kind, n, Samples);
  }

  /** A file stays through all later days whose files have other names. */
  lemma {:induction false} FileStays(
    site: Site, nodeId: string, first: int, slices: seq<seq<Sample>>, m: nat, name: string, p: Payload)
    requires m <= |slices| <= MAX_DAYS
    requires name in Files(site, nodeId, first, slices[..m]) && Files(site, nodeId, first, slices[..m])[name] == p
    requires forall n | m <= n < |slices| :: NotOfDay(name, n)
    ensures name in Files(site, nodeId, first, slices) && Files(site, nodeId, first, slices)[name] == p
  {
    if m == |slices| {
      assert slices[..m] == slices;
    } else {
      var front := slices[..|slices| - 1];
      assert front[..m] == slices[..m];
      FileStays(site, nodeId, first, front, m, name, p);
      assert NotOfDay(name, |front|);
      EarlierFileStays(site, nodeId, first, front, slices, name, p);
    }
  }

  /** Each day's file of either kind holds that day's payload. */
  lemma FilesAt(
    site: Site, nodeId: string, first: int, slices: seq<seq<Sample>>, i: nat, kind: Kind, name: string, p: Payload)
    requires i < |slices| <= MAX_DAYS
    requires name == FileName(i, kind) && p == PayloadFor(site, nodeId, first + i, kind, slices[i])
    ensures name in Files(site, nodeId, first, slices) && Files(site, nodeId, first, slices)[name] == p
  {
    LastFileIsThere(site, nodeId, first, slices[..i + 1], kind);
    forall n | i + 1 <= n < |slices| ensures NotOfDay(name, n) {
      NameOfEarlierDay(i, kind, n);
    }
    FileStays(site, nodeId, first, slices, i + 1, name, p);
  }

  /** Every file of the directory is some day's file. */
  lemma {:induction false} FilesOnly(site: Site, nodeId: string, first: int, slices: seq<seq<Sample>>, name: string)
    requires |slices| <= MAX_DAYS && name in Files(site, nodeId, first, slices)
    ensures exists i, kind: Kind | 0 <= i < |slices| :: name == FileName(i, kind)
  {
    var n := |slices| - 1;
    if name != FileName(n, Users) && name != FileName(n, Samples) {
      FilesOnly(site, nodeId, first, slices[..n], name);
      var i, kind :| 0 <= i < n && name == FileName(i, kind);
    }
  }

  lemma RangesOfPair(front: seq<Entry>, u: Entry, v: Entry, kind: Kind)
    requires u.kind.Users? && v.kind.Samples?
    ensures RangesOf(front + [u, v], kind) ==
      RangesOf(front, kind) + [if kind.Users? then Range(u.start, u.end) else Range(v.start, v.end)]
  {
    var all := front + [u, v];
    assert all[..|all| - 1] == front + [u];
    assert (front + [u])[..|front|] == front;
  }

  /** The entries of one kind are for one whole day each, from `start` on. */
  ghost predicate OnePerDay(s: seq<Entry>, start: int, kind: Kind) {
    forall i | 0 <= i < |s| :: s[i].kind == kind && s[i].start == start + i * DAY && s[i].end == start + (i + 1) * DAY
  }

  lemma {:induction false} InterleavedTile(us: seq<Entry>, vs: seq<Entry>, start: int, kind: Kind)
    requires |us| == |vs| && OnePerDay(us, start, Users) && OnePerDay(vs, start, Samples)
    ensures RangesOf(Interleave(us, vs), kind) == DayTiles(start, |us|)
  {
    if |us| > 0 {
      var n := |us| - 1;
      InterleavedTile(us[..n], vs[..n], start, kind);
      RangesOfPair(Interleave(us[..n], vs[..n]), us[n], vs[n], kind);
      assert DayTiles(start, n + 1) == DayTiles(start, n) + [Range(start + n * DAY, start + (n + 1) * DAY)];
    }
  }

  lemma DayEntriesDaily(site: Site, nodeId: string, first: int, slices: seq<seq<Sample>>, kind: Kind)
    requires |slices| <= MAX_DAYS
    ensures OnePerDay(DayEntries(site, nodeId, first, slices, kind), first * DAY, kind)
  {
  }

  lemma EntriesTile(site: Site, nodeId: string, first: int, slices: seq<seq<Sample>>, kind: Kind)
    requires |slices| <= MAX_DAYS
    ensures RangesOf(Entries(site, nodeId, first, slices), kind) == DayTiles(first * DAY, |slices|)
  {
    DayEntriesDaily(site, nodeId, first, slices, Users);
    DayEntriesDaily(site, nodeId, first, slices, Samples);
    var us, vs := DayEntries(site, nodeId, first, slices, Users), DayEntries(site, nodeId, first, slices, Samples);
    InterleavedTile(us, vs, first * DAY, kind);
  }

  lemma WrittenTiled(site: Site, nodeId: string, first: int, slices: seq<seq<Sample>>)
    requires 1 <= |slices| <= MAX_DAYS
    ensures Tiled(Entries(site, nodeId, first, slices), first * DAY, (first + |slices|) * DAY)
  {
    EntriesTile(site, nodeId, first, slices, Users);
    EntriesTile(site, nodeId, first, slices, Samples);
    assert (first + |slices|) * DAY == first * DAY + |slices| * DAY;
  }

  /** Each entry the writer lists is well formed, within the range, and describes the file it names. */
  lemma WrittenEntryOk(site: Site, g: Generation, first: int, slices: seq<seq<Sample>>, k: nat)
    requires Sane(site.codec)
    requires |slices| <= MAX_DAYS && k < 2 * |slices|
    requires g == GenerationOf(site, g.nodeId, first, g.name.resolution, slices) && SizesOk(site, g)
    ensures k < |g.manifest.files|
    ensures EntryOk(g.manifest.files[k]) && PayloadOk(site.codec, g, g.manifest.files[k])
    ensures g.manifest.start <= g.manifest.files[k].start && g.manifest.files[k].end <= g.manifest.end
  {
    var i, kind := PlaceOf(k, |slices|);
    EntryAt(site, g.nodeId, first, slices, i, kind);
    var p := PayloadFor(site, g.nodeId, first + i, kind, slices[i]);
    FilesAt(site, g.nodeId, first, slices, i, kind, FileName(i, kind), p);
    FileNameMatches(i, kind);
  }

  lemma WrittenNamesDistinct(site: Site, nodeId: string, first: int, slices: seq<seq<Sample>>, j: nat, k: nat)
    requires |slices| <= MAX_DAYS && j < k < |Entries(site, nodeId, first, slices)|
    ensures Entries(site, nodeId, first, slices)[j].name != Entries(site, nodeId, first, slices)[k].name
  {
    var a, u := PlaceOf(j, |slices|);
    var b, v := PlaceOf(k, |slices|);
    EntryAt(site, nodeId, first, slices, a, u);
    EntryAt(site, nodeId, first, slices, b, v);
    DistinctNames(a, u, b, v);
  }

  lemma WrittenNamesAll(site: Site, nodeId: string, first: int, slices: seq<seq<Sample>>, name: string)
    requires |slices| <= MAX_DAYS && name in Files(site, nodeId, first, slices)
    ensures var files := Entries(site, nodeId, first, slices);
      exists k | 0 <= k < |files| :: files[k].name == name
  {
    var files := Entries(site, nodeId, first, slices);
    FilesOnly(site, nodeId, first, slices, name);
    var i, kind :| 0 <= i < |slices| && name == FileName(i, kind);
    EntryAt(site, nodeId, first, slices, i, kind);
    assert files[Place(i, kind)].name == name;
  }

  lemma WholeDays(first: int, n: nat)
    ensures (first * DAY) % DAY == 0 && ((first + n) * DAY) % DAY == 0
    ensures n > 0 ==> first * DAY < (first + n) * DAY
  {
  }

  lemma WrittenHeaderOk(g: Generation, site: Site, first: int, slices: seq<seq<Sample>>)
    requires 1 <= |slices| <= MAX_DAYS
    requires g == GenerationOf(site, g.nodeId, first, g.name.resolution, slices)
    ensures HeaderOk(g) && g.manifest.start < g.manifest.end
  {
    WholeDays(first, |slices|);
    assert g.manifest.start == first * DAY && g.manifest.end == (first + |slices|) * DAY;
  }

  lemma WrittenNothingElse(g: Generation, site: Site, first: int, slices: seq<seq<Sample>>)
    requires |slices| <= MAX_DAYS
    requires g == GenerationOf(site, g.nodeId, first, g.name.resolution, slices)
    ensures NothingElse(g)
  {
    forall name | name in g.files
      ensures exists k | 0 <= k < |g.manifest.files| :: g.manifest.files[k].name == name
    {
      WrittenNamesAll(site, g.nodeId, first, slices, name);
    }
  }

  lemma WrittenEntriesOk(site: Site, g: Generation, first: int, slices: seq<seq<Sample>>)
    requires Sane(site.codec)
    requires |slices| <= MAX_DAYS
    requires g == GenerationOf(site, g.nodeId, first, g.name.resolution, slices) && SizesOk(site, g)
    ensures |g.manifest.files| == 2 * |slices|
    ensures EntriesOk(g.manifest) && NamesDistinct(g.manifest.files)
    ensures Listed(g) && !Spoiled(site.codec, g)
  {
    var files := g.manifest.files;
    forall k | 0 <= k < |files|
      ensures EntryOk(files[k]) && PayloadOk(site.codec, g, files[k]) && files[k].name in g.files
      ensures g.manifest.start <= files[k].start && files[k].end <= g.manifest.end
    {
      WrittenEntryOk(site, g, first, slices, k);
    }
    forall j, k | 0 <= j < k < |files|
      ensures files[j].name != files[k].name
    {
      WrittenNamesDistinct(site, g.nodeId, first, slices, j, k);
    }
  }

  /** The writer always satisfies the reader: every structural check and every payload check holds of what it writes. */
  lemma WriterSatisfiesReader(site: Site, g: Generation, first: int, slices: seq<seq<Sample>>)
    requires Sane(site.codec)
    requires 1 <= |slices| <= MAX_DAYS
    requires g == GenerationOf(site, g.nodeId, first, g.name.resolution, slices) && SizesOk(site, g)
    ensures ManifestOk(g) && Listed(g) && !Spoiled(site.codec, g)
  {
    assert HeaderOk(g) && g.manifest.start < g.manifest.end by { WrittenHeaderOk(g, site, first, slices); }
    assert Tiled(g.manifest.files, g.manifest.start, g.manifest.end) by { WrittenTiled(site, g.nodeId, first, slices); }
    assert |g.manifest.files| == 2 * |slices| && EntriesOk(g.manifest) && NamesDistinct(g.manifest.files)
           && Listed(g) && !Spoiled(site.codec, g) by {
      WrittenEntriesOk(site, g, first, slices);
    }
    assert NothingElse(g) by { WrittenNothingElse(g, site, first, slices); }
  }

  /** No other payload of the directory has the digest of the one that was written under its name. */
  ghost predicate NoCollision(codec: Codec, written: map<string, Payload>, found: map<string, Payload>) {
    forall name | name in written && name in found ::
      codec.digest(found[name]) == codec.digest(written[name]) ==> found[name] == written[name]
  }

  /**
   A written generation whose files were exchanged is accepted exactly if every file it lists is still there as it was
   written.
   */
  lemma ExchangedIsSeen(site: Site, g: Generation, first: int, slices: seq<seq<Sample>>, found: map<string, Payload>)
    requires Sane(site.codec) && 1 <= |slices| <= MAX_DAYS
    requires g == GenerationOf(site, g.nodeId, first, g.name.resolution, slices) && SizesOk(site, g)
    requires NoCollision(site.codec, g.files, found)
    ensures var h := g.(files := found);
      (Listed(h) && !Spoiled(site.codec, h)) <==>
      forall name | name in g.files :: name in found && found[name] == g.files[name]
  {
    WriterSatisfiesReader(site, g, first, slices);
    OnlyAsWritten(site.codec, g, found);
  }

  /** The same for any generation that the reader accepts. */
  lemma OnlyAsWritten(codec: Codec, g: Generation, found: map<string, Payload>)
    requires Listed(g) && NothingElse(g) && !Spoiled(codec, g) && NoCollision(codec, g.files, found)
    ensures var h := g.(files := found);
      (Listed(h) && !Spoiled(codec, h)) <==>
      forall name | name in g.files :: name in found && found[name] == g.files[name]
  {
    var h := g.(files := found);
    if Listed(h) && !Spoiled(codec, h) {
      forall name | name in g.files ensures name in found && found[name] == g.files[name] {
        var i :| 0 <= i < |g.manifest.files| && g.manifest.files[i].name == name;
        assert h.manifest.files[i].name in h.files;
        assert PayloadOk(codec, g, g.manifest.files[i]) && PayloadOk(codec, h, h.manifest.files[i]);
      }
    }
    if forall name | name in g.files :: name in found && found[name] == g.files[name] {
      forall i | 0 <= i < |h.manifest.files|
        ensures h.manifest.files[i].name in h.files && PayloadOk(codec, h, h.manifest.files[i])
      {
        assert PayloadOk(codec, g, g.manifest.files[i]);
      }
    }
  }

  // ---------------------------------------------------------------- collecting the days

  /** What the usage API answers to one query. */
  datatype Answer = Answer(truncated: bool, records: seq<Sample>)

  function RecordsOf(api: Window -> Answer, batches: seq<Window>): seq<Sample> {
    if |batches| == 0 then []
    else RecordsOf(api, batches[..|batches| - 1]) + api(batches[|batches| - 1]).records
  }

  ghost predicate AllSliceable(api: Window -> Answer, batches: seq<Window>) {
    forall i | 0 <= i < |batches| :: Sliceable(batches[i].start, batches[i].end, api(batches[i]).records)
  }

  lemma {:induction false} TilesPrefix(ws: seq<Window>, from: int, to: int, n: nat)
    requires Tiles(ws, from, to) && n < |ws|
    ensures from <= ws[n].start < ws[n].end <= to
    ensures n + 1 < |ws| ==> ws[n + 1].start == ws[n].end
    ensures n + 1 == |ws| ==> ws[n].end == to
    ensures n == 0 ==> ws[n].start == from
  {
    TilesForward(ws[1..], ws[0].end, to);
    if n == 0 {
      if |ws| > 1 { assert ws[1..][0] == ws[1]; }
    } else {
      TilesPrefix(ws[1..], ws[0].end, to, n - 1);
    }
  }

  function Truncation(api: Window -> Answer): Window -> bool {
    w => api(w).truncated
  }

  /** Cut every batch into days, in order. */
  method CutBatches(api: Window -> Answer, windows: seq<Window>, first: int, last: int)
    returns (r: Option<seq<seq<Sample>>>)
    requires first <= last && Tiles(windows, first, last)
    ensures r.Some? ==>
      |r.value| == last - first && DayByDay(first, r.value) && Flatten(r.value) == RecordsOf(api, windows)
    ensures r.Some? <==> AllSliceable(api, windows)
  {
    var days: seq<seq<Sample>> := [];
    ghost var cursor := first;
    for n := 0 to |windows|
      invariant |days| == cursor - first
      invariant cursor == if n < |windows| then windows[n].start else last
      invariant DayByDay(first, days)
      invariant Flatten(days) == RecordsOf(api, windows[..n])
      invariant forall i | 0 <= i < n :: Sliceable(windows[i].start, windows[i].end, api(windows[i]).records)
    {
      TilesPrefix(windows, first, last, n);
      var w := windows[n];
      var part := SliceDays(w.start, w.end, api(w).records);
      if part.None? { return None; }
      FlattenJoin(days, part.value);
      DayByDayJoin(first, days, part.value);
      assert windows[..n + 1][..n] == windows[..n];
      days := days + part.value;
      cursor := w.end;
    }
    assert windows[..|windows|] == windows;
    return Some(days);
  }

  /**
   The export loops: query the window in batches and cut each batch into days.  On success every sample the batches
   answered with is in the slice of its own day, once and in order, and there is a slice for every day of the window.
   */
  method CollectDays(api: Window -> Answer, first: int, last: int)
    returns (r: Option<seq<seq<Sample>>>, ghost batches: seq<Window>)
    requires first <= last
    ensures r.Some? ==>
      && Tiles(batches, first, last)
      && |r.value| == last - first && DayByDay(first, r.value) && Flatten(r.value) == RecordsOf(api, batches)
    ensures r.Some? <==>
      var leaves := AllLeaves(Truncation(api), Months(first, last));
      leaves.Some? && AllSliceable(api, leaves.value)
  {
    var windows, calls, ok := QueryBatches(first, last, Truncation(api));
    batches := windows;
    if !ok { return None, batches; }
    r := CutBatches(api, windows, first, last);
  }

  lemma DayByDayJoin(first: int, a: seq<seq<Sample>>, b: seq<seq<Sample>>)
    requires DayByDay(first, a) && DayByDay(first + |a|, b)
    ensures DayByDay(first, a + b)
  {
    forall i | 0 <= i < |a + b|
      ensures AllInDay((a + b)[i], first + i)
    {
      if i >= |a| { assert AllInDay(b[i - |a|], first + |a| + (i - |a|)); }
    }
  }
}
