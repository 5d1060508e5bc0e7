/** The entities of the service (internal/models) and the enumerations they use
    (internal/enums). Timestamps and e-mail fields are not modelled. Ids are the
    database's unsigned 64-bit ids; the model does not bound them. */
module Models {
  import opened Common

  /** enums.TeamRole in declaration order, followed by the OWNER role that the
      team service assigns to a team's creator. */
  datatype TeamRole = UnknownRole | Admin | Manager | SalesRep | Sdr | Support | DataAnalyst | Owner

  /** Join-request status codes as stored in the `status` column. */
  const Pending: nat := 0
  const Accepted: nat := 1
  const Rejected: nat := 2

  /** enums.NotificationType; the only kind the service produces. */
  datatype NotificationType = JoinRequestNotification

  /** enums/subscription, in declaration order. */
  datatype SubscriptionStatus =
    | Unknown | Active | Inactive | Canceled | PastDue | Unpaid
    | Trialing | Incomplete | IncompleteExpired | Open

  datatype User = User(
    id: nat,
    googleSub: string,
    name: string,
    cpfCnpj: string,
    stripeCustomerId: string,
    authProvider: int,
    consentTerms: bool)

  /** A team; `ownerId` is the column `owner_id` that the repository and services use. */
  datatype Team = Team(id: nat, name: string, domain: string, ownerId: nat)

  /** A membership row. `name` and `teamName` are filled only by the joined queries. */
  datatype TeamMember = TeamMember(
    id: nat,
    teamId: nat,
    userId: nat,
    role: TeamRole,
    name: string,
    teamName: string)

  /** The zero value `models.TeamMember{}`. */
  const EmptyMember := TeamMember(0, 0, 0, UnknownRole, "", "")

  datatype JoinRequest = JoinRequest(
    id: nat,
    teamId: nat,
    teamOwnerId: nat,
    senderId: nat,
    status: nat,
    decisionBy: Option<nat>)

  datatype Notification = Notification(
    id: nat,
    senderId: nat,
    receiverId: nat,
    kind: NotificationType,
    referenceId: nat,
    seen: bool)

  /** A subscription; `userId` is the column `user_id` that the repository uses.
      `currentPeriodEnd` is a Unix time in seconds. */
  datatype Subscription = Subscription(
    id: nat,
    userId: nat,
    subscriptionId: string,
    priceId: string,
    status: SubscriptionStatus,
    currentPeriodEnd: int)
}
