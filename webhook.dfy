/** The subscription part of the payment-provider webhook
    (internal/controllers/webhook.go): the provider's status string mapped to
    the subscription status enum, and the record built from a subscription
    event and upserted. */
module Webhook {
  import opened Common
  import opened Models
  import opened Store
  import SubscriptionRepository
  import SubscriptionServices

  /** ASCII lower-casing of one character. */
  function LowerChar(c: char): (l: char)
    ensures 'A' <= c <= 'Z' ==> l as int == c as int + 32
    ensures !('A' <= c <= 'Z') ==> l == c
    ensures !('A' <= l <= 'Z')
  {
    if 'A' <= c <= 'Z' then (c as int + 32) as char else c
  }

  /** Lower-cases every ASCII letter of `s`. */
  function ToLower(s: string): (t: string)
    ensures |t| == |s|
    ensures forall i :: 0 <= i < |s| ==> t[i] == LowerChar(s[i])
  {
    if s == [] then [] else [LowerChar(s[0])] + ToLower(s[1..])
  }

  /** A string with no upper-case ASCII letter is its own lower case. */
  lemma {:induction false} ToLowerKeepsLower(s: string)
    requires forall i :: 0 <= i < |s| ==> !('A' <= s[i] <= 'Z')
    ensures ToLower(s) == s
  {
    if s != [] {
      ToLowerKeepsLower(s[1..]);
    }
  }

  lemma ToLowerIdempotent(s: string)
    ensures ToLower(ToLower(s)) == ToLower(s)
  {
    ToLowerKeepsLower(ToLower(s));
  }

  /** The provider's status names and the status each one stands for: the
      reference table for MapStripeStatusToEnum. */
  const StripeStatuses: map<string, SubscriptionStatus> := map[
    "active" := Active,
    "past_due" := PastDue,
    "unpaid" := Unpaid,
    "canceled" := Canceled,
    "incomplete" := Incomplete,
    "incomplete_expired" := IncompleteExpired,
    "trialing" := Trialing]

  /** mapStripeStatusToEnum: case-insensitive; an unlisted name is Unknown. */
  function MapStripeStatusToEnum(status: string): (r: SubscriptionStatus)
    ensures ToLower(status) in StripeStatuses ==> r == StripeStatuses[ToLower(status)]
    ensures ToLower(status) !in StripeStatuses ==> r == Unknown
    ensures r != Inactive && r != Open
  {
    var s := ToLower(status);
    if s == "active" then Active
    else if s == "past_due" then PastDue
    else if s == "unpaid" then Unpaid
    else if s == "canceled" then Canceled
    else if s == "incomplete" then Incomplete
    else if s == "incomplete_expired" then IncompleteExpired
    else if s == "trialing" then Trialing
    else Unknown
  }

  /** Letter case never changes the mapped status. */
  lemma MapStripeStatusToEnumIgnoresCase(status: string)
    ensures MapStripeStatusToEnum(ToLower(status)) == MapStripeStatusToEnum(status)
  {
    ToLowerIdempotent(status);
  }

  /** Each listed name maps to its own status. */
  lemma MapStripeStatusToEnumOnListedName(name: string)
    requires name in StripeStatuses
    ensures MapStripeStatusToEnum(name) == StripeStatuses[name]
    ensures MapStripeStatusToEnum(name) != Unknown
  {
    assert forall i :: 0 <= i < |name| ==> !('A' <= name[i] <= 'Z') by {
      if name == "active" {
      } else if name == "past_due" {
      } else if name == "unpaid" {
      } else if name == "canceled" {
      } else if name == "incomplete" {
      } else if name == "incomplete_expired" {
      } else {
        assert name == "trialing";
      }
    }
    ToLowerKeepsLower(name);
  }

  /** The provider's name of a status, "" for the three statuses no name
      stands for. */
  function StripeName(st: SubscriptionStatus): string {
    match st
      case Active => "active"
      case PastDue => "past_due"
      case Unpaid => "unpaid"
      case Canceled => "canceled"
      case Incomplete => "incomplete"
      case IncompleteExpired => "incomplete_expired"
      case Trialing => "trialing"
      case _ => ""
  }

  /** Mapping a listed name and naming the status gives the name back ... */
  lemma StripeNameInvertsMap(name: string)
    requires name in StripeStatuses
    ensures StripeName(MapStripeStatusToEnum(name)) == name
  {
    MapStripeStatusToEnumOnListedName(name);
  }

  /** ... and naming a status other than Unknown, Inactive and Open and
      mapping the name gives the status back. */
  lemma MapInvertsStripeName(st: SubscriptionStatus)
    requires st != Unknown && st != Inactive && st != Open
    ensures StripeName(st) in StripeStatuses
    ensures MapStripeStatusToEnum(StripeName(st)) == st
  {
    MapStripeStatusToEnumOnListedName(StripeName(st));
  }

  /** Distinct listed names map to distinct statuses. */
  lemma MapStripeStatusToEnumDistinguishesNames(name: string, other: string)
    requires name in StripeStatuses && other in StripeStatuses && name != other
    ensures MapStripeStatusToEnum(name) != MapStripeStatusToEnum(other)
  {
    StripeNameInvertsMap(name);
    StripeNameInvertsMap(other);
  }

  /** The fields of a provider subscription event that the handler reads:
      `priceIds` are the prices of its items, in order. */
  datatype StripeSubscription = StripeSubscription(
    id: string,
    customerId: string,
    status: string,
    priceIds: seq<string>,
    currentPeriodEnd: int)

  /** The record processSubscriptionEvent builds for `user`. */
  function SubscriptionOf(event: StripeSubscription, user: User): (s: Subscription)
    requires |event.priceIds| > 0
    ensures s.userId == user.id && s.subscriptionId == event.id && s.priceId == event.priceIds[0]
    ensures s.status == MapStripeStatusToEnum(event.status) && s.currentPeriodEnd == event.currentPeriodEnd
    ensures s.status != Inactive && s.status != Open
  {
    Subscription(0, user.id, event.id, event.priceIds[0], MapStripeStatusToEnum(event.status), event.currentPeriodEnd)
  }

  /** processSubscriptionEvent. `customer` is the result of looking the event's
      customer up by provider customer id; when that lookup fails the event is
      dropped without error. Otherwise the built record is upserted. */
  method ProcessSubscriptionEvent(db: Database, event: StripeSubscription, customer: Result<User>, refused: set<DbCall>)
    returns (r: Outcome)
    requires db.Valid()
    requires customer.Ok? ==> |event.priceIds| > 0
    modifies db
    ensures db.Valid()
    ensures customer.Err? ==> r == Pass && db.Snapshot() == old(db.Snapshot())
    ensures SubscriptionServices.UniqueExternalIds(old(db.subscriptions)) ==> SubscriptionServices.UniqueExternalIds(db.subscriptions)
    ensures r.Fail? ==> db.Snapshot() == old(db.Snapshot())
    ensures customer.Ok? ==>
              (r == Pass <==>
                 Begin !in refused && Write(1) !in refused && Commit !in refused &&
                 (SubscriptionRepository.RowsWith(old(db.subscriptions), event.id) != {} || event.id != ""))
    ensures customer.Ok? && r == Pass && SubscriptionRepository.RowsWith(old(db.subscriptions), event.id) != {} ==>
              db.Snapshot() == old(db.Snapshot()).(subscriptions :=
                SubscriptionRepository.Updated(old(db.subscriptions), event.id, SubscriptionOf(event, customer.value)))
    ensures customer.Ok? && r == Pass && SubscriptionRepository.RowsWith(old(db.subscriptions), event.id) == {} ==>
              exists k :: k !in old(db.subscriptions) &&
                db.Snapshot() == old(db.Snapshot()).(subscriptions :=
                  old(db.subscriptions)[k := SubscriptionOf(event, customer.value).(id := k)])
  {
    if customer.Err? {
      return Pass;
    }
    var s := SubscriptionOf(event, customer.value);
    r := SubscriptionServices.UpsertSubscription(db, s, refused);
  }

  /** processSubscriptionEvent over the update as written: an event for a
      subscription that is already stored fails and changes nothing. */
  method ProcessSubscriptionEventAsWritten(db: Database, event: StripeSubscription, customer: Result<User>, refused: set<DbCall>)
    returns (r: Outcome)
    requires db.Valid()
    requires customer.Ok? ==> |event.priceIds| > 0
    modifies db
    ensures db.Valid()
    ensures customer.Err? ==> r == Pass && db.Snapshot() == old(db.Snapshot())
    ensures customer.Ok? && SubscriptionRepository.RowsWith(old(db.subscriptions), event.id) != {} ==>
              r.Fail? && db.Snapshot() == old(db.Snapshot())
    ensures customer.Ok? && SubscriptionRepository.RowsWith(old(db.subscriptions), event.id) == {} ==>
              (r == Pass <==> Begin !in refused && Write(1) !in refused && Commit !in refused && event.id != "")
    ensures customer.Ok? && r == Pass ==>
              exists k :: k !in old(db.subscriptions) &&
                db.Snapshot() == old(db.Snapshot()).(subscriptions :=
                  old(db.subscriptions)[k := SubscriptionOf(event, customer.value).(id := k)])
  {
    if customer.Err? {
      return Pass;
    }
    var s := SubscriptionOf(event, customer.value);
    r := SubscriptionServices.UpsertSubscriptionAsWritten(db, s, refused);
  }
}
