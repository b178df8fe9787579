/** The duplicate-suppression state machine of the YouTube-to-Discord
    announcer: for every content type the set of video IDs already known
    (the baseline listing, plus every ID whose announcement was accepted),
    and the cycle that fetches the newest IDs, announces the unknown ones
    and folds the accepted ones into the set.

    The listing fetch and the Discord POST are not modelled; their results
    are inputs: `fetch` gives the listing for a content type and a limit,
    `post` gives the webhook's response to the announcement of an ID. */
module Notifier {

  datatype Option<T> = None | Some(value: T)

  /** The content types of the channel that are tracked, in the order in
      which the listing is seeded and scanned. */
  datatype ContentType = Videos | Shorts | Streams

  const ContentTypes: seq<ContentType> := [Videos, Shorts, Streams]

  /** Number of newest IDs fetched per content type in each cycle. */
  const CycleFetchLimit: nat := 28

  /** Discord target of the announcements for one content type. */
  datatype Announcement = Announcement(channelId: string, content: string)

  /** Result of listing the channel: the set of video IDs, or a connection
      or JSON decoding failure. */
  datatype FetchResult = Fetched(ids: set<string>) | FetchFailed

  /** What the webhook does with one announcement: an HTTP status code, or
      no answer before the timeout. */
  datatype Response = Status(code: int) | Timeout

  /** What sending one announcement ends in: the announcer returns whether
      the post was accepted, or raises on a timeout, or raises because no
      announcement target is configured for the content type. */
  datatype Delivery = Posted(accepted: bool) | TimedOut | MissingAnnouncement

  /** An announcement counts as delivered exactly when the webhook answers 200. */
  predicate Accepted(r: Response)
  {
    r.Status? && r.code == 200
  }

  function FetchedIds(f: FetchResult): set<string>
  {
    match f
    case Fetched(ids) => ids
    case FetchFailed => {}
  }

  // ---------------------------------------------------------------------
  // Specification of one content type's known set
  // ---------------------------------------------------------------------

  /** The known set after checking one ID whose announcement would get
      response `r`. */
  function CheckId(known: set<string>, id: string, r: Response): set<string>
  {
    if id in known then known
    else if Accepted(r) then known + {id}
    else known
  }

  /** The known set after checking every fetched ID: the old set plus the
      fetched IDs whose announcement was accepted. */
  function CheckIds(known: set<string>, ids: set<string>, post: string -> Response): (k: set<string>)
    ensures known <= k <= known + ids
    ensures forall id :: id in ids && id !in known ==> (id in k <==> Accepted(post(id)))
  {
    known + set id | id in ids && Accepted(post(id))
  }

  /** A fetch failure leaves the known set as it was; otherwise the fetched
      IDs are checked. */
  function TryCheck(known: set<string>, fetched: FetchResult, post: string -> Response): (k: set<string>)
    ensures fetched.FetchFailed? ==> k == known
    ensures known <= k <= known + FetchedIds(fetched)
  {
    match fetched
    case FetchFailed => known
    case Fetched(ids) => CheckIds(known, ids, post)
  }

  /** Checking fetched IDs raises when an unknown one turns up for a content
      type that has no announcement target. */
  predicate MissingTarget(known: set<string>, fetched: FetchResult, hasTarget: bool)
  {
    !hasTarget && !(FetchedIds(fetched) <= known)
  }

  /** The whole map after one cycle in which no content type raised. */
  function CycleKnown(known: map<ContentType, set<string>>,
                      fetch: (ContentType, Option<nat>) -> FetchResult,
                      post: ContentType -> string -> Response): (k: map<ContentType, set<string>>)
    ensures k.Keys == known.Keys
    ensures forall ct :: ct in known ==> known[ct] <= k[ct]
    ensures forall ct :: ct in known ==> k[ct] - known[ct] <= FetchedIds(fetch(ct, Some(CycleFetchLimit)))
  {
    map ct | ct in known :: TryCheck(known[ct], fetch(ct, Some(CycleFetchLimit)), post(ct))
  }

  /** A map that holds every content type, each with its set after the
      cycle, is the map after the cycle. */
  lemma CycleKnownByType(known: map<ContentType, set<string>>, after: map<ContentType, set<string>>,
                         fetch: (ContentType, Option<nat>) -> FetchResult,
                         post: ContentType -> string -> Response)
    requires forall ct: ContentType :: ct in known && ct in after
    requires forall ct: ContentType :: after[ct] == TryCheck(known[ct], fetch(ct, Some(CycleFetchLimit)), post(ct))
    ensures after == CycleKnown(known, fetch, post)
  {
  }

  // ---------------------------------------------------------------------
  // Reference definition: the IDs checked one at a time in a given order
  // ---------------------------------------------------------------------

  /** The set an iteration order walks through. */
  function Elements(order: seq<string>): set<string>
  {
    set id | id in order
  }

  /** Checking the fetched IDs one more ID at a time. */
  lemma CheckIdsStep(known: set<string>, done: set<string>, id: string, post: string -> Response)
    ensures CheckIds(known, done + {id}, post) == CheckId(CheckIds(known, done, post), id, post(id))
  {
  }

  /** `ContentTypes` lists every content type. */
  lemma ContentTypesComplete()
    ensures forall ct: ContentType :: ct in ContentTypes
  {
    forall ct: ContentType ensures ct in ContentTypes {
      match ct
      case Videos => assert ContentTypes[0] == ct;
      case Shorts => assert ContentTypes[1] == ct;
      case Streams => assert ContentTypes[2] == ct;
    }
  }

  predicate NoDuplicates(s: seq<string>)
  {
    forall i, j :: 0 <= i < j < |s| ==> s[i] != s[j]
  }

  /** The known set after checking the IDs of `order` one after another. */
  function KnownAlong(known: set<string>, order: seq<string>, post: string -> Response): set<string>
    decreases |order|
  {
    if order == [] then known
    else KnownAlong(CheckId(known, order[0], post(order[0])), order[1..], post)
  }

  /** The IDs announced, in order, when checking the IDs of `order` one
      after another. */
  function AttemptsAlong(known: set<string>, order: seq<string>, post: string -> Response): seq<string>
    decreases |order|
  {
    if order == [] then []
    else
      var id := order[0];
      (if id in known then [] else [id])
        + AttemptsAlong(CheckId(known, id, post(id)), order[1..], post)
  }

  /** Whatever order the fetched set is walked in, the known set ends the
      same: the old set plus the accepted fetched IDs. */
  lemma {:induction false} AnyOrderSameKnown(known: set<string>, order: seq<string>, post: string -> Response)
    ensures KnownAlong(known, order, post) == CheckIds(known, Elements(order), post)
    decreases |order|
  {
    if order != [] {
      var id := order[0];
      var next := CheckId(known, id, post(id));
      AnyOrderSameKnown(next, order[1..], post);
      assert Elements(order) == {id} + Elements(order[1..]);
    }
  }

  /** Walking the fetched set (an order without repetitions) announces every
      fetched ID that is not yet known, each exactly once, and nothing else. */
  lemma {:induction false} AnyOrderAnnouncesOnce(known: set<string>, order: seq<string>, post: string -> Response)
    requires NoDuplicates(order)
    ensures forall id :: id in AttemptsAlong(known, order, post) <==> id in order && id !in known
    ensures NoDuplicates(AttemptsAlong(known, order, post))
    decreases |order|
  {
    if order != [] {
      var id := order[0];
      var next := CheckId(known, id, post(id));
      var rest := AttemptsAlong(next, order[1..], post);
      assert NoDuplicates(order[1..]) by {
        forall i, j | 0 <= i < j < |order[1..]| ensures order[1..][i] != order[1..][j] {
          assert order[1..][i] == order[i + 1] && order[1..][j] == order[j + 1];
        }
      }
      AnyOrderAnnouncesOnce(next, order[1..], post);
      assert id !in order[1..] by {
        forall j | 0 <= j < |order[1..]| ensures order[1..][j] != id {
          assert order[1..][j] == order[j + 1];
        }
      }
      assert forall x :: x in order[1..] ==> (x in next <==> x in known);
      assert id !in rest;
      var head: seq<string> := if id in known then [] else [id];
      assert AttemptsAlong(known, order, post) == head + rest;
      forall x ensures x in head + rest <==> x in order && x !in known {
        assert x in order <==> x == id || x in order[1..];
      }
      forall i, j | 0 <= i < j < |head + rest| ensures (head + rest)[i] != (head + rest)[j] {
        if head != [] && i == 0 {
          assert (head + rest)[j] == rest[j - 1];
        } else {
          assert (head + rest)[i] == rest[i - |head|] && (head + rest)[j] == rest[j - |head|];
        }
      }
    }
  }

  /** Once every fetched ID has been accepted, checking the same listing
      again announces nothing and changes nothing, whatever the webhook
      would answer. */
  lemma SecondPassAnnouncesNothing(known: set<string>, ids: set<string>,
                                   post: string -> Response, later: string -> Response)
    requires forall id :: id in ids ==> Accepted(post(id))
    ensures ids - CheckIds(known, ids, post) == {}
    ensures CheckIds(CheckIds(known, ids, post), ids, later) == CheckIds(known, ids, post)
  {
  }

  // ---------------------------------------------------------------------
  // The looper
  // ---------------------------------------------------------------------

  class Looper {
    const channelUsername: string
    const token: string
    const announcements: map<ContentType, Announcement>
    /** For each content type, the video IDs already seen or announced. */
    var videoIds: map<ContentType, set<string>>

    /** Every content type is a key of `videoIds`. */
    ghost predicate Valid()
      reads this
    {
      forall ct: ContentType :: ct in videoIds
    }

    /** Seeds every content type's set with the unlimited listing. */
    constructor (announcements: map<ContentType, Announcement>, channelUsername: string, token: string,
                 fetch: (ContentType, Option<nat>) -> FetchResult)
      requires forall ct :: fetch(ct, None).Fetched?
      ensures Valid()
      ensures forall ct :: videoIds[ct] == fetch(ct, None).ids
      ensures this.announcements == announcements
      ensures this.channelUsername == channelUsername && this.token == token
    {
      this.channelUsername := channelUsername;
      this.announcements := announcements;
      this.token := token;
      videoIds := map[];
      new;
      for i := 0 to |ContentTypes|
        invariant forall ct :: ct in videoIds <==> ct in ContentTypes[..i]
        invariant forall ct :: ct in videoIds ==> videoIds[ct] == fetch(ct, None).ids
      {
        var ct := ContentTypes[i];
        videoIds := videoIds[ct := fetch(ct, None).ids];
      }
      assert ContentTypes[..|ContentTypes|] == ContentTypes;
      ContentTypesComplete();
    }

    /** Sends the announcement of `id` for `ct`: whether the webhook answered
        200, or a timeout, or no target configured for `ct`. */
    method SendAnnouncement(ct: ContentType, id: string, post: string -> Response) returns (d: Delivery)
      ensures d == MissingAnnouncement <==> ct !in announcements
      ensures d == TimedOut <==> ct in announcements && post(id).Timeout?
      ensures d == Posted(true) <==> ct in announcements && Accepted(post(id))
      ensures d == Posted(false) <==> ct in announcements && post(id).Status? && post(id).code != 200
    {
      if ct !in announcements {
        return MissingAnnouncement;
      }
      var response := post(id);
      match response
      case Timeout =>
        d := TimedOut;
      case Status(code) =>
        d := Posted(code == 200);
    }

    /** Checks one fetched ID: a known ID is skipped without an announcement;
        an unknown one is announced and becomes known only if the webhook
        accepted it. Returns the delivery, or None when skipped. */
    method CheckNewVideoId(ct: ContentType, id: string, post: string -> Response) returns (step: Option<Delivery>)
      requires Valid()
      modifies this
      ensures Valid()
      ensures step.None? <==> id in old(videoIds[ct])
      ensures step == Some(MissingAnnouncement) <==> id !in old(videoIds[ct]) && ct !in announcements
      ensures step.Some? && step.value != MissingAnnouncement ==> ct in announcements
      ensures step == Some(Posted(true)) <==> id !in old(videoIds[ct]) && ct in announcements && Accepted(post(id))
      ensures videoIds == old(videoIds)[ct := CheckId(old(videoIds[ct]), id, post(id))]
                      || step == Some(MissingAnnouncement)
      ensures step == Some(MissingAnnouncement) ==> videoIds == old(videoIds)
    {
      if id in videoIds[ct] {
        assert videoIds == videoIds[ct := videoIds[ct]];
        return None;
      }
      var d := SendAnnouncement(ct, id, post);
      step := Some(d);
      if d == Posted(true) {
        videoIds := videoIds[ct := videoIds[ct] + {id}];
      } else {
        assert videoIds == videoIds[ct := videoIds[ct]];
      }
    }

    /** Checks every fetched ID of `ct`, in whatever order the set yields
        them. Returns the IDs whose announcement was posted, and false when
        checking raised because `ct` has no announcement target. */
    method CheckNewVideoIds(ct: ContentType, ids: set<string>, post: string -> Response)
      returns (attempted: set<string>, ok: bool)
      requires Valid()
      modifies this
      ensures Valid()
      ensures ok <==> !MissingTarget(old(videoIds[ct]), Fetched(ids), ct in announcements)
      ensures ok ==> attempted == ids - old(videoIds[ct])
      ensures ok ==> videoIds == old(videoIds)[ct := CheckIds(old(videoIds[ct]), ids, post)]
      ensures !ok ==> attempted == {} && videoIds == old(videoIds)
    {
      ghost var known := videoIds[ct];
      var rest := ids;
      attempted := {};
      assert CheckIds(known, ids - rest, post) == known;
      assert videoIds == videoIds[ct := known];
      while rest != {}
        invariant Valid()
        invariant rest <= ids
        invariant videoIds == old(videoIds)[ct := CheckIds(known, ids - rest, post)]
        invariant attempted == (ids - rest) - known
        invariant ct !in announcements ==> ids - rest <= known
        decreases rest
      {
        var id :| id in rest;
        assert id in videoIds[ct] <==> id in known;
        var step := CheckNewVideoId(ct, id, post);
        if step == Some(MissingAnnouncement) {
          assert CheckIds(known, ids - rest, post) == known;
          assert videoIds == old(videoIds);
          return {}, false;
        }
        if step.Some? {
          attempted := attempted + {id};
        }
        CheckIdsStep(known, ids - rest, id, post);
        assert ids - (rest - {id}) == (ids - rest) + {id};
        rest := rest - {id};
      }
      assert ids - rest == ids;
      ok := true;
    }

    /** Fetches the newest IDs of `ct` and checks them; a fetch failure skips
        `ct` for this cycle. */
    method TryCheckVideoIds(ct: ContentType, fetch: (ContentType, Option<nat>) -> FetchResult,
                            post: string -> Response)
      returns (attempted: set<string>, ok: bool)
      requires Valid()
      modifies this
      ensures Valid()
      ensures ok <==> !MissingTarget(old(videoIds[ct]), fetch(ct, Some(CycleFetchLimit)), ct in announcements)
      ensures ok ==> attempted == FetchedIds(fetch(ct, Some(CycleFetchLimit))) - old(videoIds[ct])
      ensures ok ==> videoIds == old(videoIds)[ct := TryCheck(old(videoIds[ct]), fetch(ct, Some(CycleFetchLimit)), post)]
      ensures !ok ==> attempted == {} && videoIds == old(videoIds)
    {
      var fetched := fetch(ct, Some(CycleFetchLimit));
      match fetched
      case FetchFailed =>
        assert videoIds == videoIds[ct := videoIds[ct]];
        attempted, ok := {}, true;
      case Fetched(ids) =>
        attempted, ok := CheckNewVideoIds(ct, ids, post);
    }

    /** One cycle of the loop: every content type in turn. Returns the IDs
        posted per content type, and the content type whose missing
        announcement target stopped the cycle, if any. */
    method Loop(fetch: (ContentType, Option<nat>) -> FetchResult, post: ContentType -> string -> Response)
      returns (attempted: map<ContentType, set<string>>, failed: Option<ContentType>)
      requires Valid()
      modifies this
      ensures Valid()
      ensures failed.None? <==>
                forall ct :: !MissingTarget(old(videoIds[ct]), fetch(ct, Some(CycleFetchLimit)), ct in announcements)
      ensures failed.Some? ==>
                MissingTarget(old(videoIds[failed.value]), fetch(failed.value, Some(CycleFetchLimit)),
                              failed.value in announcements)
      ensures failed.None? ==> videoIds == CycleKnown(old(videoIds), fetch, post)
      ensures failed.None? ==> forall ct :: (ct in attempted &&
                attempted[ct] == FetchedIds(fetch(ct, Some(CycleFetchLimit))) - old(videoIds[ct]))
      ensures forall ct :: old(videoIds[ct]) <= videoIds[ct]
    {
      attempted := map[];
      for i := 0 to |ContentTypes|
        invariant Valid()
        invariant forall ct :: ct in ContentTypes[..i] ==>
                    !MissingTarget(old(videoIds[ct]), fetch(ct, Some(CycleFetchLimit)), ct in announcements)
        invariant forall ct :: ct in ContentTypes[..i] ==>
                    videoIds[ct] == TryCheck(old(videoIds[ct]), fetch(ct, Some(CycleFetchLimit)), post(ct))
        invariant forall ct :: ct !in ContentTypes[..i] ==> videoIds[ct] == old(videoIds[ct])
        invariant forall ct :: ct in attempted <==> ct in ContentTypes[..i]
        invariant forall ct :: ct in attempted ==>
                    attempted[ct] == FetchedIds(fetch(ct, Some(CycleFetchLimit))) - old(videoIds[ct])
      {
        var ct := ContentTypes[i];
        assert ct !in ContentTypes[..i];
        var posted, ok := TryCheckVideoIds(ct, fetch, post(ct));
        if !ok {
          return attempted, Some(ct);
        }
        attempted := attempted[ct := posted];
        assert ContentTypes[..i + 1] == ContentTypes[..i] + [ct];
      }
      assert ContentTypes[..|ContentTypes|] == ContentTypes;
      ContentTypesComplete();
      CycleKnownByType(old(videoIds), videoIds, fetch, post);
      failed := None;
    }
  }

  /** Starting the announcer: the looper exists only when every baseline
      (unlimited) fetch succeeded; a failing one ends the start-up. */
  method Start(announcements: map<ContentType, Announcement>, channelUsername: string, token: string,
               fetch: (ContentType, Option<nat>) -> FetchResult)
    returns (r: Option<Looper>)
    ensures r.None? <==> exists ct :: fetch(ct, None).FetchFailed?
    ensures r.Some? ==> fresh(r.value) && r.value.Valid() && r.value.announcements == announcements
    ensures r.Some? ==> forall ct :: r.value.videoIds[ct] == fetch(ct, None).ids
  {
    for i := 0 to |ContentTypes|
      invariant forall ct :: ct in ContentTypes[..i] ==> fetch(ct, None).Fetched?
    {
      if fetch(ContentTypes[i], None).FetchFailed? {
        return None;
      }
      assert ContentTypes[..i + 1] == ContentTypes[..i] + [ContentTypes[i]];
    }
    assert ContentTypes[..|ContentTypes|] == ContentTypes;
    ContentTypesComplete();
    var looper := new Looper(announcements, channelUsername, token, fetch);
    r := Some(looper);
  }
}
