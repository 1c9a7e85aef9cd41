/**
 * Who may change a lot, and how a new lot is checked against its auction
 * and stamped with the auction's fields (lots/routes.js).
 */
module LotAccess {
  import opened Wrappers
  import opened Ids
  import J = Json


  /** The fields of a stored lot that the edit rule reads. */
  datatype LotOwnership = LotOwnership(createdBy: UserId, draft: bool)

  /** Why `canEdit` refuses: not the owner nor an admin; or the lot is published. */
  datatype EditError = NotAuthorized | OnlyDraftsEditable

  /**
   * `canEdit`: the owner or an admin may edit, and only a draft. When both
   * rules fail, the ownership failure is the one reported.
   */
  function CanEdit(lot: LotOwnership, caller: UserId, isAdmin: bool): (r: Outcome<EditError>)
    ensures r.Pass? <==> (lot.createdBy == caller || isAdmin) && lot.draft
    ensures lot.createdBy != caller && !isAdmin ==> r == Fail(NotAuthorized)
    ensures r == Fail(OnlyDraftsEditable) <==> (lot.createdBy == caller || isAdmin) && !lot.draft
  {
    if lot.createdBy != caller && !isAdmin then Fail(NotAuthorized)
    else if !lot.draft then Fail(OnlyDraftsEditable)
    else Pass
  }

  // ---------------------------------------------------------------------
  // Creating a lot in an auction

  /**
   * The auction fields the create handler loads. Times are whole seconds
   * since the epoch; the `*Seconds` fields are durations in seconds.
   */
  datatype AuctionInfo = AuctionInfo(
    id: string,
    state: string,
    liveAt: int,
    lotOpeningSeconds: int,
    lotMaxSeconds: int,
    auctionMaxSeconds: int)

  datatype CreateError =
    | BodyInvalid(details: J.Value)  // what the validator picked by `FirstValidator` reported
    | AuctionNotFound
    | AuctionClosed              // 'Auction state': 'Auction closed'
    | Invalid(details: J.Value)  // what the lot validator for the auction's kind reported

  type LotBody = map<string, J.Value>

  /** The members the create handler writes over the request's lot. */
  const StampedFields: set<string> :=
    {"auction", "state", "createdBy", "lotMaxSeconds", "finishAt", "shouldClose"}

  /**
   * The lot body with the auction's fields stamped onto it: the six stamped
   * members come from the auction and the caller, whatever the body said,
   * and every other member is kept.
   */
  function Stamp(body: LotBody, auction: AuctionInfo, caller: UserId): (r: LotBody)
    ensures r.Keys == body.Keys + StampedFields
    ensures forall k :: k in body && k !in StampedFields ==> r[k] == body[k]
    ensures r["auction"] == J.Str(auction.id) && r["state"] == J.Str(auction.state)
    ensures r["createdBy"] == J.Str(caller) && r["lotMaxSeconds"] == J.Num(auction.lotMaxSeconds)
    ensures r["finishAt"] == J.Num(auction.liveAt + auction.lotOpeningSeconds)
    ensures r["shouldClose"] == J.Num(auction.liveAt + auction.auctionMaxSeconds)
  {
    body + map[
      "auction" := J.Str(auction.id),
      "state" := J.Str(auction.state),
      "createdBy" := J.Str(caller),
      "lotMaxSeconds" := J.Num(auction.lotMaxSeconds),
      "finishAt" := J.Num(auction.liveAt + auction.lotOpeningSeconds),
      "shouldClose" := J.Num(auction.liveAt + auction.auctionMaxSeconds)]
  }

  /** The body validators the route chooses between before it loads the auction. */
  datatype BodyValidator = CreateDraftValidator | CreateWebValidator | CreateValidator

  /**
   * The first validator of the create-lot route: the draft one for a lot whose
   * `draft` is truthy, otherwise the web one for `platform: 'web-app'`, and
   * the general one for anything else.
   */
  function FirstValidator(body: LotBody): (v: BodyValidator)
    ensures v == CreateDraftValidator <==> "draft" in body && J.Truthy(body["draft"])
    ensures v == CreateWebValidator <==>
      !("draft" in body && J.Truthy(body["draft"])) && "platform" in body && body["platform"] == J.Str("web-app")
  {
    if "draft" in body && J.Truthy(body["draft"]) then CreateDraftValidator
    else if "platform" in body && body["platform"] == J.Str("web-app") then CreateWebValidator
    else CreateValidator
  }

  /**
   * The create-lot route. `bodyVerdict` is what `FirstValidator(body)` said
   * of the request's lot, `validation` what the validator for the auction's
   * kind said. A lot the first validator rejects is refused with its errors
   * before the auction is loaded; then a missing auction is not found; a
   * closed auction is refused before the second verdict is looked at; a lot
   * the second validator rejected is refused with its errors; otherwise the
   * lot is stamped.
   */
  function CreateLot(body: LotBody, bodyVerdict: Outcome<J.Value>, auction: Option<AuctionInfo>,
                     caller: UserId, validation: Outcome<J.Value>): (r: Result<LotBody, CreateError>)
    ensures bodyVerdict.Fail? ==> r == Failure(BodyInvalid(bodyVerdict.error))
    ensures bodyVerdict.Pass? && auction.None? ==> r == Failure(AuctionNotFound)
    ensures bodyVerdict.Pass? && auction.Some? && auction.value.state == "closed" ==>
              r == Failure(AuctionClosed)
    ensures bodyVerdict.Pass? && auction.Some? && auction.value.state != "closed" && validation.Fail? ==>
              r == Failure(Invalid(validation.error))
    ensures r.Success? <==>
              bodyVerdict.Pass? && auction.Some? && auction.value.state != "closed" && validation.Pass?
    ensures r.Success? ==>
      && r.value.Keys == body.Keys + StampedFields
      && (forall k :: k in body && k !in StampedFields ==> r.value[k] == body[k])
      && r.value["auction"] == J.Str(auction.value.id)
      && r.value["state"] == J.Str(auction.value.state)
      && r.value["createdBy"] == J.Str(caller)
      && r.value["lotMaxSeconds"] == J.Num(auction.value.lotMaxSeconds)
      && r.value["finishAt"] == J.Num(auction.value.liveAt + auction.value.lotOpeningSeconds)
      && r.value["shouldClose"] == J.Num(auction.value.liveAt + auction.value.auctionMaxSeconds)
  {
    if bodyVerdict.Fail? then Failure(BodyInvalid(bodyVerdict.error))
    else match auction
    case None => Failure(AuctionNotFound)
    case Some(a) =>
      if a.state == "closed" then Failure(AuctionClosed)
      else if validation.Fail? then Failure(Invalid(validation.error))
      else Success(Stamp(body, a, caller))
  }

  /** A created lot is never closed: it takes the state of an auction that is not. */
  lemma CreatedLotNotClosed(body: LotBody, bodyVerdict: Outcome<J.Value>, auction: Option<AuctionInfo>,
                            caller: UserId, validation: Outcome<J.Value>)
    requires CreateLot(body, bodyVerdict, auction, caller, validation).Success?
    ensures CreateLot(body, bodyVerdict, auction, caller, validation).value["state"] != J.Str("closed")
  {
  }

  /** Whatever the body says about its owner or auction, the stamped values win. */
  lemma StampOverridesBody(body: LotBody, a: AuctionInfo, caller: UserId)
    ensures CreateLot(body, Pass, Some(a), caller, Pass) ==
      if a.state == "closed" then Failure(AuctionClosed)
      else Success(CreateLot(body - StampedFields, Pass, Some(a), caller, Pass).value)
  {
    if a.state != "closed" {
      assert Stamp(body, a, caller) == Stamp(body - StampedFields, a, caller);
    }
  }
}
