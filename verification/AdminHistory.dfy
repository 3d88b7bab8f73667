/**
 Policy updates and service-account transfers on one server.  Each refuses to start while the other's journal is pending
 (src/bk/admin.py), so a run amounts to the sequence of those that took effect.  A transfer rewrites the configuration
 without adding to the update history, which decides where that history stays linked.
 */
module AdminHistory {
  import opened Basics
  import opened Transfer
  import opened PolicyUpdate

  /** Something that took effect: a new policy, the rest of the configuration kept, or a new service account. */
  datatype Effect = Policy(rest: string) | Account(to: Owner)

  function Apply(c: Config, e: Effect): Config {
    match e
    case Policy(rest) => c.(rest := rest)
    case Account(to) => NewConfig(c, to)
  }

  /** The configuration after the effects, in order. */
  function After(start: Config, effects: seq<Effect>): Config {
    if |effects| == 0 then start
    else Apply(After(start, effects[..|effects| - 1]), effects[|effects| - 1])
  }

  function EntryOf(digest: Config -> string, before: Config, e: Effect): seq<Entry> {
    if e.Policy? then [Entry(digest(before), digest(Apply(before, e)))] else []
  }

  /** Every update entry ever written, oldest first. */
  function AllEntries(digest: Config -> string, start: Config, effects: seq<Effect>): seq<Entry> {
    if |effects| == 0 then []
    else
      var n := |effects| - 1;
      AllEntries(digest, start, effects[..n]) + EntryOf(digest, After(start, effects[..n]), effects[n])
  }

  /** What the manifest shows: an update keeps 31 entries and adds one, a transfer keeps them all. */
  function Shown(digest: Config -> string, start: Config, shown: seq<Entry>, effects: seq<Effect>): seq<Entry> {
    if |effects| == 0 then shown
    else
      var n := |effects| - 1;
      var earlier := Shown(digest, start, shown, effects[..n]);
      if effects[n].Account? then earlier
      else Last(earlier, 31) + EntryOf(digest, After(start, effects[..n]), effects[n])
  }

  /** Over every run of updates and transfers the manifest shows the last 32 entries. */
  lemma {:induction false} ShowsTheLast(digest: Config -> string, start: Config, kept: seq<Entry>, effects: seq<Effect>)
    ensures Shown(digest, start, Last(kept, 32), effects) == Last(kept + AllEntries(digest, start, effects), 32)
  {
    if |effects| == 0 {
      assert kept + [] == kept;
    } else {
      var n := |effects| - 1;
      var all, next := AllEntries(digest, start, effects[..n]), EntryOf(digest, After(start, effects[..n]), effects[n]);
      ShowsTheLast(digest, start, kept, effects[..n]);
      assert AllEntries(digest, start, effects) == all + next;
      assert kept + (all + next) == (kept + all) + next;
      if effects[n].Policy? {
        WindowSlides(kept + all, next[0]);
      } else {
        assert (kept + all) + next == kept + all;
      }
    }
  }

  lemma {:induction false} AfterJoin(start: Config, a: seq<Effect>, b: seq<Effect>)
    ensures After(start, a + b) == After(After(start, a), b)
  {
    if |b| == 0 {
      assert a + b == a;
    } else {
      AfterJoin(start, a, b[..|b| - 1]);
      assert (a + b)[..|a + b| - 1] == a + b[..|b| - 1];
    }
  }

  lemma EntriesGrow(digest: Config -> string, start: Config, effects: seq<Effect>, e: Effect)
    ensures AllEntries(digest, start, effects + [e]) ==
      AllEntries(digest, start, effects) + EntryOf(digest, After(start, effects), e)
  {
    assert (effects + [e])[..|effects|] == effects;
  }

  /** The entries of `a + b` are known to be those of `a`, then those of `b`. */
  ghost predicate Joins(digest: Config -> string, start: Config, a: seq<Effect>, b: seq<Effect>) {
    AllEntries(digest, start, a + b) == AllEntries(digest, start, a) + AllEntries(digest, After(start, a), b)
  }

  lemma SameEffects(a: seq<Effect>, b: seq<Effect>, e: Effect)
    ensures a + (b + [e]) == (a + b) + [e]
  {
  }

  lemma SameEntries(a: seq<Entry>, b: seq<Entry>, c: seq<Entry>)
    ensures a + (b + c) == (a + b) + c
  {
  }

  lemma JoinsOneMore(digest: Config -> string, start: Config, a: seq<Effect>, b: seq<Effect>, e: Effect)
    requires Joins(digest, start, a, b)
    ensures Joins(digest, start, a, b + [e])
  {
    var mid := After(start, a);
    AfterJoin(start, a, b);
    EntriesGrow(digest, start, a + b, e);
    EntriesGrow(digest, mid, b, e);
    SameEffects(a, b, e);
    SameEntries(AllEntries(digest, start, a), AllEntries(digest, mid, b), EntryOf(digest, After(mid, b), e));
  }

  lemma {:induction false} EntriesJoin(digest: Config -> string, start: Config, a: seq<Effect>, b: seq<Effect>)
    ensures Joins(digest, start, a, b)
  {
    if |b| == 0 {
      assert a + b == a;
    } else {
      var front := b[..|b| - 1];
      EntriesJoin(digest, start, a, front);
      JoinsOneMore(digest, start, a, front, b[|b| - 1]);
      assert b == front + [b[|b| - 1]];
    }
  }

  ghost predicate OnlyTransfers(effects: seq<Effect>) {
    forall i | 0 <= i < |effects| :: effects[i].Account?
  }

  /** Transfers add no entries and keep the policy; the account is that of the last one. */
  lemma {:induction false} TransfersOnly(digest: Config -> string, start: Config, moves: seq<Effect>)
    requires OnlyTransfers(moves)
    ensures AllEntries(digest, start, moves) == []
    ensures After(start, moves) ==
      start.(serviceUid := if moves == [] then start.serviceUid else moves[|moves| - 1].to.uid)
  {
    if |moves| > 0 { TransfersOnly(digest, start, moves[..|moves| - 1]); }
  }

  lemma OneUpdate(digest: Config -> string, start: Config, rest: string)
    ensures After(start, [Policy(rest)]) == start.(rest := rest)
    ensures AllEntries(digest, start, [Policy(rest)]) == [Entry(digest(start), digest(start.(rest := rest)))]
  {
    assert [Policy(rest)][..0] == [];
  }

  /** The first entry after some transfers is that of the update that follows them. */
  lemma EntryAfterTransfers(digest: Config -> string, start: Config, moves: seq<Effect>, y: string, b: seq<Effect>)
    requires OnlyTransfers(moves)
    ensures var all := AllEntries(digest, start, moves + ([Policy(y)] + b));
      all != [] && all[0].from == digest(After(start, moves))
  {
    var found := After(start, moves);
    EntriesJoin(digest, start, moves, [Policy(y)] + b);
    TransfersOnly(digest, start, moves);
    EntriesJoin(digest, found, [Policy(y)], b);
    OneUpdate(digest, found, y);
  }

  /** The entry of an update stands behind those from before it, and in front of those from after it. */
  lemma EntryInPlace(digest: Config -> string, start: Config, a: seq<Effect>, x: string, rest: seq<Effect>)
    ensures var c := After(start, a);
      AllEntries(digest, start, a + ([Policy(x)] + rest)) ==
      AllEntries(digest, start, a) +
      ([Entry(digest(c), digest(c.(rest := x)))] + AllEntries(digest, c.(rest := x), rest))
  {
    var c := After(start, a);
    EntriesJoin(digest, start, a, [Policy(x)] + rest);
    EntriesJoin(digest, c, [Policy(x)], rest);
    OneUpdate(digest, c, x);
  }

  /** What happens from update `x` on, through the transfers after it and the update `y` that follows them. */
  function Stretch(a: seq<Effect>, x: string, moves: seq<Effect>, y: string, b: seq<Effect>): seq<Effect> {
    a + ([Policy(x)] + (moves + ([Policy(y)] + b)))
  }

  /**
   With a collision-free digest, the entries of two updates with only transfers between them are linked exactly if the
   second update found the account the first one left: no transfer came between them, or the last one led back.
   */
  lemma NeighboursLinkIff(
    digest: Config -> string, start: Config, a: seq<Effect>, x: string, moves: seq<Effect>, y: string, b: seq<Effect>)
    requires CollisionFree(digest) && OnlyTransfers(moves)
    ensures var k, all := |AllEntries(digest, start, a)|, AllEntries(digest, start, Stretch(a, x, moves, y, b));
      && k + 1 < |all|
      && (all[k].to == all[k + 1].from <==> moves == [] || moves[|moves| - 1].to.uid == After(start, a).serviceUid)
  {
    var left := After(start, a).(rest := x);
    EntryInPlace(digest, start, a, x, moves + ([Policy(y)] + b));
    EntryAfterTransfers(digest, left, moves, y, b);
    TransfersOnly(digest, left, moves);
  }

  /**
   The newest entry leads to the configuration in place exactly if the transfers since then led back to its account.
   */
  lemma NewestLeadsHereIff(digest: Config -> string, start: Config, a: seq<Effect>, x: string, moves: seq<Effect>)
    requires CollisionFree(digest) && OnlyTransfers(moves)
    ensures var all := AllEntries(digest, start, a + ([Policy(x)] + moves));
      && all != []
      && (all[|all| - 1].to == digest(After(start, a + ([Policy(x)] + moves))) <==>
          moves == [] || moves[|moves| - 1].to.uid == After(start, a).serviceUid)
  {
    var c := After(start, a);
    EntryInPlace(digest, start, a, x, moves);
    OneUpdate(digest, c, x);
    TransfersOnly(digest, c.(rest := x), moves);
    AfterJoin(start, a, [Policy(x)] + moves);
    AfterJoin(c, [Policy(x)], moves);
  }

  /** A run whose history is broken: an update, a transfer to another account, and a second update. */
  lemma TransferBreaksTheChain(digest: Config -> string)
    requires CollisionFree(digest)
    ensures var all := AllEntries(digest, Config(1, "a"), [Policy("b"), Account(Owner(2, 2)), Policy("c")]);
      |all| == 2 && all[0].to != all[1].from
  {
    var start, moves := Config(1, "a"), [Account(Owner(2, 2))];
    var left := start.(rest := "b");
    NeighboursLinkIff(digest, start, [], "b", moves, "c", []);
    assert Stretch([], "b", moves, "c", []) == [Policy("b"), Account(Owner(2, 2)), Policy("c")];
    EntryInPlace(digest, start, [], "b", moves + ([Policy("c")] + []));
    EntriesJoin(digest, left, moves, [Policy("c")]);
    TransfersOnly(digest, left, moves);
    OneUpdate(digest, After(left, moves), "c");
    assert [Policy("c")] + [] == [Policy("c")];
  }
}
