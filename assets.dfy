/**
 * `/assets`: game owners request assets for their game; contributors list the
 * pending requests of one asset type, accept one, and later mark it finished.
 * The lifecycle of a request row is Pending, then Accepted (with an
 * acceptor), then Finished.
 */
module Assets {
  import opened Wrappers
  import opened PyStrings
  import opened Databases

  /** Assets.ASSET_TYPES: the choices of the asset-type menu. */
  const AssetTypes: seq<string> := ["2D Art", "3D Art", "SFX", "Music", "Voice", "Narrative"]

  // ---------------------------------------------------------------------------
  // /assets request
  // ---------------------------------------------------------------------------

  datatype RequestReply =
    | NoGameFound            // "No game found for this channel."
    | NotOwner               // "Only the game owner can request assets."
    | Raises                 // the owner value is not text: Python raises TypeError
    | PickAssetType(game: Row)  // the asset-type menu, bound to this game

  /** The game `request` works on: game 1 in the test environment, the channel's game otherwise. */
  function RequestGame(db: Database, channelId: int, testEnvironment: bool): (r: Option<Row>)
    reads db
    ensures testEnvironment ==>
      (r.None? <==> forall k :: 0 <= k < |db.games| ==> db.games[k].id != 1) &&
      (r.Some? ==> r.value in db.games && r.value.id == 1)
    ensures !testEnvironment ==>
      (r.None? <==> forall k :: 0 <= k < |db.games| ==> !FieldIs(db.games[k], "channel_id", Int(channelId))) &&
      (r.Some? ==> r.value in db.games && FieldIs(r.value, "channel_id", Int(channelId)))
  {
    if testEnvironment then GetDefaultGameInfo(db.games) else GetGameInfo(db.games, Int(channelId))
  }

  /**
   * `Assets.request`: refused without a game row, and refused unless the
   * caller's display name occurs somewhere in the stored owner text.
   */
  function Request(db: Database, channelId: int, authorDisplayName: string, testEnvironment: bool): (r: RequestReply)
    reads db
    ensures r == NoGameFound <==> RequestGame(db, channelId, testEnvironment).None?
    ensures r.PickAssetType? <==>
      RequestGame(db, channelId, testEnvironment).Some? &&
      Field(RequestGame(db, channelId, testEnvironment).value, "owner").Text? &&
      Contains(Field(RequestGame(db, channelId, testEnvironment).value, "owner").s, authorDisplayName)
    ensures r.PickAssetType? ==> r.game == RequestGame(db, channelId, testEnvironment).value
    ensures r == Raises <==>
      RequestGame(db, channelId, testEnvironment).Some? && !Field(RequestGame(db, channelId, testEnvironment).value, "owner").Text?
  {
    var game := RequestGame(db, channelId, testEnvironment);
    if game.None? then NoGameFound
    else
      var owner := Field(game.value, "owner");
      if !owner.Text? then Raises
      else if !Contains(owner.s, authorDisplayName) then NotOwner
      else PickAssetType(game.value)
  }

  /** The owner test is a substring test: any part of the owner text passes it, the empty name included. */
  lemma OwnerTestIsSubstring(db: Database, channelId: int, testEnvironment: bool, owner: string, i: nat, j: nat)
    requires RequestGame(db, channelId, testEnvironment).Some?
    requires Field(RequestGame(db, channelId, testEnvironment).value, "owner") == Text(owner)
    requires i <= j <= |owner|
    ensures Request(db, channelId, owner[i..j], testEnvironment).PickAssetType?
  {
    ContainsIff(owner, owner[i..j]);
    assert OccursAt(owner, owner[i..j], i);
  }

  /** The context stored for a request: the input, or "N/A" when it was left empty. */
  function StoredContext(context: string): (r: string)
    ensures context == "" ==> r == "N/A"
    ensures context != "" ==> r == context
    ensures r != ""
  {
    if context != "" then context else "N/A"
  }

  /** `AssetRequestModal.callback`: one Pending request for the menu's game, asked for by `user`. */
  method SubmitRequest(db: Database, game: Row, assetType: string, content: string, context: string, user: string)
    requires db.Valid()
    modifies db
    ensures db.Valid()
    ensures db.Rows(AssetRequests) == old(db.Rows(AssetRequests)) +
      [Row(old(db.NextId(AssetRequests)), RequestCols(game.id, assetType, content, StoredContext(context), user))]
    ensures forall u :: u != AssetRequests ==> db.Rows(u) == old(db.Rows(u)) && db.NextId(u) == old(db.NextId(u))
  {
    db.AddAssetRequest(game.id, assetType, content, StoredContext(context), user);
  }

  // ---------------------------------------------------------------------------
  // The list flow of AssetTypeSelect.callback
  // ---------------------------------------------------------------------------

  /** The rows the list flow shows: Accepted requests of `user` (listaccepted), or Pending ones (listrequests). */
  function ListQuery(db: Database, assetType: string, user: Option<string>): (rows: seq<Row>)
    reads db
    ensures forall x :: x in rows <==>
      && x in db.assetRequests
      && FieldIs(x, "asset_type", Text(assetType))
      && FieldIs(x, "status", Text(if Truthy(user) then "Accepted" else "Pending"))
      && (Truthy(user) ==> FieldIs(x, "requested_by", Text(user.value)))
  {
    if Truthy(user) then db.GetAssetRequestsByType(assetType, "Accepted", user)
    else db.GetAssetRequestsByType(assetType, "Pending", None)
  }

  /** `listaccepted` filters on who asked for a request, so a request the user accepted for someone else is not listed. */
  lemma ListAcceptedMatchesRequester(db: Database, assetType: string, user: string, x: Row)
    requires user != "" && Field(x, "accepted_by") == Text(user) && Field(x, "requested_by") != Text(user)
    ensures x !in ListQuery(db, assetType, Some(user))
  {
  }

  /** `f"{value}"` for a column value. */
  function ValueText(v: Value): string {
    match v
    case Null => "None"
    case Int(i) => IntToString(i)
    case Text(s) => s
  }

  /** `req["context"] or "N/A"`: NULL and empty text both show as "N/A". */
  function ContextText(v: Value): (r: string)
    ensures v == Null || v == Text("") ==> r == "N/A"
    ensures v.Text? && v.s != "" ==> r == v.s
  {
    if v == Null || v == Text("") then "N/A" else ValueText(v)
  }

  /** RequestView carries an Accept button, FinishView a Finished button. */
  datatype ButtonView = RequestView | FinishView

  /** One listed request: the embed's title and description, and the view under it with its game. */
  datatype Card = Card(requestId: int, title: string, description: string, view: ButtonView, game: Row)

  datatype Send =
    | NoRequests(assetType: string)  // "No requests for <type>."
    | Initial(card: Card)            // the interaction's response
    | Followup(card: Card)           // a follow-up message
  {
    /** The message shows card `c`. */
    predicate Shows(c: Card) {
      !NoRequests? && card == c
    }

    /** The message shows the card of request `id`. */
    predicate ShowsRequest(id: int) {
      !NoRequests? && card.requestId == id
    }
  }

  /**
   * The card for one request, or `None` where building its view raises
   * TypeError: the request's game has no row, or no row has its channel.
   * Both lookups read the games table `games`.
   */
  function CardFor(games: seq<Row>, req: Row, user: Option<string>): (c: Option<Card>)
    ensures c.Some? ==> c.value.requestId == req.id
  {
    var channelId := GetGameChannel(games, Field(req, "game_id"));
    var game := GetGameInfo(games, channelId);
    if game.None? then None
    else
      Some(Card(req.id, ValueText(Field(req, "content")), "**Context:** " + ContextText(Field(req, "context")),
                if Truthy(user) then FinishView else RequestView, game.value))
  }

  /**
   * A card exists exactly when some game row has the channel `get_game_channel`
   * gives for the request's game; it shows the request's context ("N/A" when
   * there is none) and carries the Finished button exactly when a user was given.
   */
  lemma CardForShape(games: seq<Row>, req: Row, user: Option<string>)
    ensures var c, channel := CardFor(games, req, user), GetGameChannel(games, Field(req, "game_id"));
      && (c.None? <==> forall k :: 0 <= k < |games| ==> !FieldIs(games[k], "channel_id", channel))
      && (c.Some? ==> FieldIs(c.value.game, "channel_id", channel) && c.value.game in games)
      && (c.Some? ==> c.value.description == "**Context:** " + ContextText(Field(req, "context")))
      && (c.Some? ==> (c.value.view == FinishView <==> Truthy(user)))
  {
  }

  /** A request whose game row is gone gets no card: `get_game_channel` returns None and no game has a NULL channel. */
  lemma NoCardWithoutGame(games: seq<Row>, req: Row, user: Option<string>)
    requires forall k :: 0 <= k < |games| ==> !FieldIs(games[k], "id", Field(req, "game_id"))
    ensures CardFor(games, req, user).None?
  {
  }

  /** The card of each listed row, in order. */
  function CardsOf(games: seq<Row>, rows: seq<Row>, user: Option<string>): (r: seq<Option<Card>>)
    ensures |r| == |rows|
    decreases |rows|
  {
    if |rows| == 0 then [] else CardsOf(games, rows[..|rows| - 1], user) + [CardFor(games, rows[|rows| - 1], user)]
  }

  /** Position `k` of `CardsOf` is the card of row `k`. */
  lemma {:induction false} CardsOfAt(games: seq<Row>, rows: seq<Row>, user: Option<string>, k: nat)
    requires k < |rows|
    ensures CardsOf(games, rows, user)[k] == CardFor(games, rows[k], user)
    decreases |rows|
  {
    if k < |rows| - 1 {
      CardsOfAt(games, rows[..|rows| - 1], user, k);
    }
  }

  /** The cards sent before the first one that cannot be built, and whether the loop got through them all. */
  datatype CardRun = CardRun(cards: seq<Card>, complete: bool)

  function CardRunOf(opts: seq<Option<Card>>): CardRun
    decreases |opts|
  {
    if |opts| == 0 then CardRun([], true)
    else
      var prev := CardRunOf(opts[..|opts| - 1]);
      if !prev.complete then prev
      else if opts[|opts| - 1].None? then CardRun(prev.cards, false)
      else CardRun(prev.cards + [opts[|opts| - 1].value], true)
  }

  /** The first card goes out as the response, every later one as a follow-up. */
  function Announce(cards: seq<Card>): (sends: seq<Send>)
    ensures |sends| == |cards|
  {
    seq(|cards|, k requires 0 <= k < |cards| => if k == 0 then Initial(cards[k]) else Followup(cards[k]))
  }

  /** Every card is sent, in order: the first as the response, the others as follow-ups. */
  lemma AnnounceShape(cards: seq<Card>)
    ensures forall k :: 0 <= k < |cards| ==> Announce(cards)[k].Shows(cards[k])
    ensures |cards| > 0 ==> Announce(cards)[0].Initial?
    ensures forall k :: 1 <= k < |cards| ==> Announce(cards)[k].Followup?
  {
  }

  /** One more card adds one message at the end: the response if it is the first card, a follow-up otherwise. */
  lemma AnnounceSnoc(cards: seq<Card>, c: Card)
    ensures Announce(cards + [c]) == Announce(cards) + [if |cards| == 0 then Initial(c) else Followup(c)]
  {
    var a, b := Announce(cards + [c]), Announce(cards) + [if |cards| == 0 then Initial(c) else Followup(c)];
    assert |a| == |b|;
    forall k | 0 <= k < |a| ensures a[k] == b[k] {
      if k < |cards| {
        assert (cards + [c])[k] == cards[k];
      }
    }
  }

  /** What the list flow sends, and whether it raises part-way. */
  datatype ListOutcome = ListOutcome(sends: seq<Send>, raises: bool)

  /** What the flow does for the listed `rows`, given the games table. */
  function ListOutcomeOf(games: seq<Row>, assetType: string, rows: seq<Row>, user: Option<string>): ListOutcome {
    if |rows| == 0 then ListOutcome([NoRequests(assetType)], false)
    else
      var run := CardRunOf(CardsOf(games, rows, user));
      ListOutcome(Announce(run.cards), !run.complete)
  }

  function ListSpec(db: Database, assetType: string, user: Option<string>): ListOutcome
    reads db
  {
    ListOutcomeOf(db.games, assetType, ListQuery(db, assetType, user), user)
  }

  /** Once a card has failed, later rows change nothing. */
  lemma {:induction false} CardRunStopped(opts: seq<Option<Card>>, i: nat)
    requires i <= |opts|
    requires !CardRunOf(opts[..i]).complete
    ensures CardRunOf(opts) == CardRunOf(opts[..i])
    decreases |opts| - i
  {
    if i < |opts| {
      assert opts[..i + 1][..i] == opts[..i];
      CardRunStopped(opts, i + 1);
    } else {
      assert opts[..i] == opts;
    }
  }

  /** One pass of the loop: a card that cannot be built ends the run, any other joins it. */
  lemma CardRunStep(opts: seq<Option<Card>>, i: nat, cards: seq<Card>)
    requires i < |opts| && CardRunOf(opts[..i]) == CardRun(cards, true)
    ensures opts[i].None? ==> CardRunOf(opts) == CardRun(cards, false)
    ensures opts[i].Some? ==> CardRunOf(opts[..i + 1]) == CardRun(cards + [opts[i].value], true)
  {
    assert opts[..i + 1][..i] == opts[..i];
    if opts[i].None? {
      CardRunStopped(opts, i + 1);
    }
  }

  /**
   * The run is complete exactly when every card could be built, and then it
   * holds one card per row, in row order.
   */
  lemma {:induction false} CardRunComplete(opts: seq<Option<Card>>)
    ensures CardRunOf(opts).complete <==> forall k :: 0 <= k < |opts| ==> opts[k].Some?
    ensures CardRunOf(opts).complete ==>
      |CardRunOf(opts).cards| == |opts| &&
      forall k :: 0 <= k < |opts| ==> opts[k].Some? && CardRunOf(opts).cards[k] == opts[k].value
    decreases |opts|
  {
    if |opts| > 0 {
      var prefix := opts[..|opts| - 1];
      CardRunComplete(prefix);
      assert forall k :: 0 <= k < |prefix| ==> prefix[k] == opts[k];
    }
  }

  /** The list branch of `AssetTypeSelect.callback`: the query, then one message per row. */
  method ListRequests(db: Database, assetType: string, user: Option<string>) returns (sends: seq<Send>, raises: bool)
    ensures ListOutcome(sends, raises) == ListSpec(db, assetType, user)
  {
    var rows := ListQuery(db, assetType, user);
    if |rows| == 0 {
      return [NoRequests(assetType)], false;
    }
    sends, raises := SendCards(db.games, rows, user);
  }

  /** The loop over the listed rows with its `first` flag; each pass looks the request's game up in `games`. */
  method SendCards(games: seq<Row>, rows: seq<Row>, user: Option<string>) returns (sends: seq<Send>, raises: bool)
    ensures sends == Announce(CardRunOf(CardsOf(games, rows, user)).cards)
    ensures raises == !CardRunOf(CardsOf(games, rows, user)).complete
  {
    ghost var opts := CardsOf(games, rows, user);
    var first := true;
    sends := [];
    ghost var cards: seq<Card> := [];
    var i := 0;
    while i < |rows|
      invariant 0 <= i <= |rows|
      invariant CardRunOf(opts[..i]) == CardRun(cards, true)
      invariant |cards| == i
      invariant sends == Announce(cards)
      invariant first <==> i == 0
    {
      var card := CardFor(games, rows[i], user);
      CardsOfAt(games, rows, user, i);
      CardRunStep(opts, i, cards);
      if card.None? {
        return sends, true;
      }
      AnnounceSnoc(cards, card.value);
      sends := Post(sends, first, card.value);
      first := false;
      cards := cards + [card.value];
      i := i + 1;
    }
    assert opts[..i] == opts;
    raises := false;
  }

  /** `interaction.response.send_message` for the first card, `interaction.followup.send` for the others. */
  method Post(sends: seq<Send>, first: bool, card: Card) returns (after: seq<Send>)
    ensures after == sends + [if first then Initial(card) else Followup(card)]
  {
    if first {
      after := sends + [Initial(card)];
    } else {
      after := sends + [Followup(card)];
    }
  }

  /**
   * With no matching request the flow sends one "No requests" message. With
   * some, it raises exactly when a card cannot be built; otherwise it sends one
   * message per request in table order, the first as the response and the rest
   * as follow-ups.
   */
  lemma ListSends(db: Database, assetType: string, user: Option<string>)
    ensures var rows, out := ListQuery(db, assetType, user), ListSpec(db, assetType, user);
      && (|rows| == 0 ==> out.sends == [NoRequests(assetType)] && !out.raises)
      && (|rows| > 0 ==> (out.raises <==> exists k :: 0 <= k < |rows| && CardFor(db.games, rows[k], user).None?))
      && (|rows| > 0 && !out.raises ==>
            |out.sends| == |rows| &&
            out.sends[0].Initial? &&
            (forall k :: 1 <= k < |rows| ==> out.sends[k].Followup?) &&
            (forall k :: 0 <= k < |rows| ==> out.sends[k].ShowsRequest(rows[k].id)))
  {
    SendsFor(db.games, assetType, ListQuery(db, assetType, user), user);
  }

  lemma SendsFor(games: seq<Row>, assetType: string, rows: seq<Row>, user: Option<string>)
    ensures var out := ListOutcomeOf(games, assetType, rows, user);
      && (|rows| == 0 ==> out.sends == [NoRequests(assetType)] && !out.raises)
      && (|rows| > 0 ==> (out.raises <==> exists k :: 0 <= k < |rows| && CardFor(games, rows[k], user).None?))
      && (|rows| > 0 && !out.raises ==>
            |out.sends| == |rows| &&
            out.sends[0].Initial? &&
            (forall k :: 1 <= k < |rows| ==> out.sends[k].Followup?) &&
            (forall k :: 0 <= k < |rows| ==> out.sends[k].ShowsRequest(rows[k].id)))
  {
    if |rows| > 0 {
      var run := CardRunOf(CardsOf(games, rows, user));
      RunRaises(games, rows, user);
      if run.complete {
        RunOrder(games, rows, user);
        AnnounceShape(run.cards);
      }
    }
  }

  /** The run stops short exactly when some listed request has no card. */
  lemma RunRaises(games: seq<Row>, rows: seq<Row>, user: Option<string>)
    ensures !CardRunOf(CardsOf(games, rows, user)).complete <==> exists k :: 0 <= k < |rows| && CardFor(games, rows[k], user).None?
  {
    var opts := CardsOf(games, rows, user);
    CardRunComplete(opts);
    forall k | 0 <= k < |rows| ensures opts[k] == CardFor(games, rows[k], user) {
      CardsOfAt(games, rows, user, k);
    }
  }

  /** A complete run announces one card per row, carrying that row's id. */
  lemma RunOrder(games: seq<Row>, rows: seq<Row>, user: Option<string>)
    requires CardRunOf(CardsOf(games, rows, user)).complete
    ensures var cards := CardRunOf(CardsOf(games, rows, user)).cards;
      |cards| == |rows| && forall k :: 0 <= k < |rows| ==> cards[k].requestId == rows[k].id
  {
    var opts := CardsOf(games, rows, user);
    CardRunComplete(opts);
    forall k | 0 <= k < |rows| ensures CardRunOf(opts).cards[k].requestId == rows[k].id {
      CardsOfAt(games, rows, user, k);
    }
  }

  // ---------------------------------------------------------------------------
  // Accept and Finished buttons
  // ---------------------------------------------------------------------------

  /** `AcceptButton.callback`: the listed request becomes Accepted, with the clicking user as acceptor. */
  method Accept(db: Database, requestId: int, user: string)
    requires db.Valid()
    modifies db
    ensures db.Valid()
    ensures |db.Rows(AssetRequests)| == |old(db.Rows(AssetRequests))|
    ensures forall k :: 0 <= k < |db.Rows(AssetRequests)| ==>
      var before, after := old(db.Rows(AssetRequests))[k], db.Rows(AssetRequests)[k];
      after.id == before.id &&
      (before.id == requestId ==> Field(after, "status") == Text("Accepted") && Field(after, "accepted_by") == Text(user)) &&
      (before.id == requestId ==> after.cols == before.cols["status" := Text("Accepted")]["accepted_by" := Text(user)]) &&
      (before.id != requestId ==> after == before)
    ensures forall u :: u != AssetRequests ==> db.Rows(u) == old(db.Rows(u))
    ensures forall u :: db.NextId(u) == old(db.NextId(u))
  {
    db.MarkRequestAccepted(requestId, user);
  }

  /** `FinishButton.callback`: the listed request becomes Finished; its acceptor stays. */
  method Finish(db: Database, requestId: int)
    requires db.Valid()
    modifies db
    ensures db.Valid()
    ensures |db.Rows(AssetRequests)| == |old(db.Rows(AssetRequests))|
    ensures forall k :: 0 <= k < |db.Rows(AssetRequests)| ==>
      var before, after := old(db.Rows(AssetRequests))[k], db.Rows(AssetRequests)[k];
      after.id == before.id &&
      (before.id == requestId ==> Field(after, "status") == Text("Finished") && Field(after, "accepted_by") == Field(before, "accepted_by")) &&
      (before.id == requestId ==> after.cols == before.cols["status" := Text("Finished")]) &&
      (before.id != requestId ==> after == before)
    ensures forall u :: u != AssetRequests ==> db.Rows(u) == old(db.Rows(u))
    ensures forall u :: db.NextId(u) == old(db.NextId(u))
  {
    db.MarkRequestFinished(requestId);
  }

  /** The whole lifecycle: a request accepted by `user` and then finished is Finished, with `user` as acceptor, and no longer pending. */
  method AcceptThenFinish(db: Database, requestId: int, user: string)
    requires db.Valid()
    modifies db
    ensures db.Valid()
    ensures forall k :: 0 <= k < |db.Rows(AssetRequests)| && db.Rows(AssetRequests)[k].id == requestId ==>
      Field(db.Rows(AssetRequests)[k], "status") == Text("Finished") && Field(db.Rows(AssetRequests)[k], "accepted_by") == Text(user)
    ensures !db.IsRequestPending(requestId)
  {
    Accept(db, requestId, user);
    Finish(db, requestId);
  }
}
