/** One content type over a run of cycles: the baseline listing, then a
    sequence of cycles, each a fetch result and the webhook's answers. The
    lemmas state what the known set is after any prefix of the run, and
    which IDs each cycle announces. */
module History {
  import opened Notifier

  /** One cycle as seen by one content type. */
  datatype Cycle = Cycle(fetched: FetchResult, post: string -> Response)

  /** The known set after the baseline and the given cycles. */
  function KnownAfter(baseline: set<string>, cycles: seq<Cycle>): set<string>
    decreases |cycles|
  {
    if cycles == [] then baseline
    else
      var n := |cycles| - 1;
      TryCheck(KnownAfter(baseline, cycles[..n]), cycles[n].fetched, cycles[n].post)
  }

  /** The IDs a cycle announces, starting from the known set `known`. */
  function Attempted(known: set<string>, c: Cycle): set<string>
  {
    FetchedIds(c.fetched) - known
  }

  /** The IDs of a cycle whose announcement the webhook accepted. */
  function Announced(known: set<string>, c: Cycle): set<string>
  {
    set id | id in Attempted(known, c) && Accepted(c.post(id))
  }

  /** A cycle adds to the known set exactly the IDs it announced with
      success. */
  lemma CycleAddsAnnounced(known: set<string>, c: Cycle)
    ensures TryCheck(known, c.fetched, c.post) == known + Announced(known, c)
    ensures known !! Announced(known, c)
  {
  }

  /** Some cycle before cycle k announced `id` with success. */
  ghost predicate AnnouncedBefore(baseline: set<string>, cycles: seq<Cycle>, k: nat, id: string)
  {
    exists j :: 0 <= j < k <= |cycles| && id in Announced(KnownAfter(baseline, cycles[..j]), cycles[j])
  }

  /** The known set after k cycles is the one after k - 1 cycles plus what
      cycle k - 1 announced with success. */
  lemma KnownAfterStep(baseline: set<string>, cycles: seq<Cycle>, k: nat)
    requires 0 < k <= |cycles|
    ensures KnownAfter(baseline, cycles[..k])
              == KnownAfter(baseline, cycles[..k - 1]) + Announced(KnownAfter(baseline, cycles[..k - 1]), cycles[k - 1])
  {
    assert cycles[..k][..k - 1] == cycles[..k - 1];
    CycleAddsAnnounced(KnownAfter(baseline, cycles[..k - 1]), cycles[k - 1]);
  }

  /** Some cycle before cycle k announced `id` with success exactly when
      some cycle before cycle k - 1 did, or cycle k - 1 did. */
  lemma AnnouncedBeforeStep(baseline: set<string>, cycles: seq<Cycle>, k: nat, id: string)
    requires 0 < k <= |cycles|
    ensures AnnouncedBefore(baseline, cycles, k, id) <==>
              AnnouncedBefore(baseline, cycles, k - 1, id)
              || id in Announced(KnownAfter(baseline, cycles[..k - 1]), cycles[k - 1])
  {
    if AnnouncedBefore(baseline, cycles, k, id) {
      var j :| 0 <= j < k <= |cycles| && id in Announced(KnownAfter(baseline, cycles[..j]), cycles[j]);
      if j < k - 1 {
        assert AnnouncedBefore(baseline, cycles, k - 1, id);
      }
    }
    if AnnouncedBefore(baseline, cycles, k - 1, id) {
      var j :| 0 <= j < k - 1 <= |cycles| && id in Announced(KnownAfter(baseline, cycles[..j]), cycles[j]);
      assert AnnouncedBefore(baseline, cycles, k, id);
    }
    if id in Announced(KnownAfter(baseline, cycles[..k - 1]), cycles[k - 1]) {
      assert AnnouncedBefore(baseline, cycles, k, id);
    }
  }

  /** An ID is known after k cycles exactly when it was in the baseline or
      one of those cycles announced it with success. */
  lemma {:induction false} KnownAfterIff(baseline: set<string>, cycles: seq<Cycle>, k: nat, id: string)
    requires k <= |cycles|
    ensures id in KnownAfter(baseline, cycles[..k]) <==> id in baseline || AnnouncedBefore(baseline, cycles, k, id)
    decreases k
  {
    if k == 0 {
      assert cycles[..0] == [];
    } else {
      KnownAfterIff(baseline, cycles, k - 1, id);
      KnownAfterStep(baseline, cycles, k);
      AnnouncedBeforeStep(baseline, cycles, k, id);
    }
  }

  /** The known set never loses an ID: it only grows along the run, and it
      always holds the baseline. */
  lemma {:induction false} KnownGrows(baseline: set<string>, cycles: seq<Cycle>, i: nat, j: nat)
    requires i <= j <= |cycles|
    ensures baseline <= KnownAfter(baseline, cycles[..i]) <= KnownAfter(baseline, cycles[..j])
    decreases j, i
  {
    if i < j {
      KnownGrows(baseline, cycles, i, j - 1);
      KnownAfterStep(baseline, cycles, j);
    } else if i == 0 {
      assert cycles[..0] == [];
    } else {
      KnownGrows(baseline, cycles, 0, i);
    }
  }

  /** Cycle k announces an ID exactly when it fetched the ID, the ID was not
      in the baseline, and no earlier cycle announced it with success: a
      failed announcement is retried in every later cycle that fetches the
      ID, until one is accepted. */
  lemma AttemptedIff(baseline: set<string>, cycles: seq<Cycle>, k: nat, id: string)
    requires k < |cycles|
    ensures id in Attempted(KnownAfter(baseline, cycles[..k]), cycles[k]) <==>
              && id in FetchedIds(cycles[k].fetched)
              && id !in baseline
              && forall j :: 0 <= j < k ==> id !in Announced(KnownAfter(baseline, cycles[..j]), cycles[j])
  {
    KnownAfterIff(baseline, cycles, k, id);
  }

  /** An ID of the baseline listing is never announced. */
  lemma BaselineNeverAnnounced(baseline: set<string>, cycles: seq<Cycle>, k: nat, id: string)
    requires k < |cycles|
    requires id in baseline
    ensures id !in Attempted(KnownAfter(baseline, cycles[..k]), cycles[k])
  {
    KnownGrows(baseline, cycles, 0, k);
  }

  /** Once an announcement of an ID has been accepted, no later cycle
      announces that ID again, even if it is still fetched. */
  lemma NoRepeatAfterSuccess(baseline: set<string>, cycles: seq<Cycle>, i: nat, k: nat, id: string)
    requires i < k < |cycles|
    requires id in Announced(KnownAfter(baseline, cycles[..i]), cycles[i])
    ensures id !in Attempted(KnownAfter(baseline, cycles[..k]), cycles[k])
  {
    KnownAfterStep(baseline, cycles, i + 1);
    KnownGrows(baseline, cycles, i + 1, k);
  }

  /** A cycle whose fetch fails announces nothing and leaves the known set
      as it was. */
  lemma FailedFetchChangesNothing(baseline: set<string>, cycles: seq<Cycle>, k: nat)
    requires k < |cycles|
    requires cycles[k].fetched.FetchFailed?
    ensures Attempted(KnownAfter(baseline, cycles[..k]), cycles[k]) == {}
    ensures KnownAfter(baseline, cycles[..k + 1]) == KnownAfter(baseline, cycles[..k])
  {
    KnownAfterStep(baseline, cycles, k + 1);
  }

  // ---------------------------------------------------------------------
  // Whole cycles of the looper, seen one content type at a time
  // ---------------------------------------------------------------------

  /** What one cycle of the looper sees: the listing and the webhook. */
  datatype Round = Round(fetch: (ContentType, Option<nat>) -> FetchResult,
                         post: ContentType -> string -> Response)

  /** The map of known sets after the given cycles, none of which raised. */
  function LoopAfter(known: map<ContentType, set<string>>, rounds: seq<Round>): map<ContentType, set<string>>
    decreases |rounds|
  {
    if rounds == [] then known
    else
      var n := |rounds| - 1;
      CycleKnown(LoopAfter(known, rounds[..n]), rounds[n].fetch, rounds[n].post)
  }

  /** The cycles as seen by content type `ct`: its bounded fetch and its
      webhook answers. */
  function CyclesOf(rounds: seq<Round>, ct: ContentType): seq<Cycle>
  {
    seq(|rounds|, i requires 0 <= i < |rounds| => Cycle(rounds[i].fetch(ct, Some(CycleFetchLimit)), rounds[i].post(ct)))
  }

  /** Cycles keep the content types of the map. */
  lemma {:induction false} LoopAfterKeys(known: map<ContentType, set<string>>, rounds: seq<Round>)
    ensures LoopAfter(known, rounds).Keys == known.Keys
    decreases |rounds|
  {
    if rounds != [] {
      LoopAfterKeys(known, rounds[..|rounds| - 1]);
    }
  }

  lemma CyclesOfPrefix(rounds: seq<Round>, ct: ContentType, n: nat)
    requires n <= |rounds|
    ensures CyclesOf(rounds, ct)[..n] == CyclesOf(rounds[..n], ct)
  {
    var cs := CyclesOf(rounds, ct);
    forall i | 0 <= i < n ensures cs[..n][i] == CyclesOf(rounds[..n], ct)[i] {
      assert rounds[..n][i] == rounds[i];
    }
  }

  /** Over a run of looper cycles each content type's known set evolves on
      its own, as the single-type run above. */
  lemma {:induction false} LoopAfterPerType(known: map<ContentType, set<string>>, rounds: seq<Round>, ct: ContentType)
    requires ct in known
    ensures ct in LoopAfter(known, rounds)
    ensures LoopAfter(known, rounds)[ct] == KnownAfter(known[ct], CyclesOf(rounds, ct))
    decreases |rounds|
  {
    LoopAfterKeys(known, rounds);
    if rounds != [] {
      var n := |rounds| - 1;
      var before := LoopAfter(known, rounds[..n]);
      var cs := CyclesOf(rounds, ct);
      LoopAfterPerType(known, rounds[..n], ct);
      CyclesOfPrefix(rounds, ct, n);
      calc {
        LoopAfter(known, rounds)[ct];
        CycleKnown(before, rounds[n].fetch, rounds[n].post)[ct];
        TryCheck(before[ct], cs[n].fetched, cs[n].post);
        TryCheck(KnownAfter(known[ct], cs[..n]), cs[n].fetched, cs[n].post);
        KnownAfter(known[ct], cs);
      }
    }
  }
}
