/**
 * The transaction schema as a validator with defaults: `amount`,
 * `conversionRate`, `sender`, `receiver` and `region` are required;
 * `currencyFrom`/`currencyTo` default to "USD"/"USDC"; `status` must be
 * pending, completed or rejected and defaults to pending. There is no range
 * check on `amount`.
 */
module TransactionSchema {
  import opened Wrappers
  import opened Domain
  import UserSchema

  /** The fields handed to `new Transaction(req.body)`; unknown body fields are dropped. */
  datatype TransactionDoc = TransactionDoc(
    amount: Option<int>, currencyFrom: Option<string>, currencyTo: Option<string>,
    conversionRate: Option<int>, sender: Option<Id>, receiver: Option<Id>,
    region: Option<string>, status: Option<string>)

  type FieldError = UserSchema.FieldError

  const DefaultCurrencyFrom: string := "USD"
  const DefaultCurrencyTo: string := "USDC"

  /** One error per failing path, in schema order. */
  function Errors(d: TransactionDoc): (es: seq<FieldError>)
    ensures es == [] <==>
      d.amount.Some? && d.conversionRate.Some? && d.sender.Some? && d.receiver.Some? &&
      UserSchema.Given(d.region) && (d.status.None? || ParseStatus(d.status.value).Some?)
  {
    UserSchema.ErrorIf(d.amount.None?, UserSchema.Required("amount")) +
    UserSchema.ErrorIf(d.conversionRate.None?, UserSchema.Required("conversionRate")) +
    UserSchema.ErrorIf(d.sender.None?, UserSchema.Required("sender")) +
    UserSchema.ErrorIf(d.receiver.None?, UserSchema.Required("receiver")) +
    UserSchema.RequiredError("region", d.region) +
    StatusError(d.status)
  }

  /** The enum check on `status`: only a status that is given and not one of the three fails. */
  function StatusError(status: Option<string>): (r: seq<FieldError>)
    ensures forall x :: x in r <==> status.Some? && ParseStatus(status.value).None? && x == UserSchema.NotInEnum("status", status.value)
    ensures r == [] <==> status.None? || ParseStatus(status.value).Some?
  {
    if status.Some? && ParseStatus(status.value).None? then [UserSchema.NotInEnum("status", status.value)] else []
  }

  /** An error is reported exactly when one of the six checks reports it. */
  lemma ErrorsParts(d: TransactionDoc)
    ensures forall x :: x in Errors(d) <==>
      x in UserSchema.ErrorIf(d.amount.None?, UserSchema.Required("amount")) ||
      x in UserSchema.ErrorIf(d.conversionRate.None?, UserSchema.Required("conversionRate")) ||
      x in UserSchema.ErrorIf(d.sender.None?, UserSchema.Required("sender")) ||
      x in UserSchema.ErrorIf(d.receiver.None?, UserSchema.Required("receiver")) ||
      x in UserSchema.RequiredError("region", d.region) ||
      x in StatusError(d.status)
  {
    Concat6Members(UserSchema.ErrorIf(d.amount.None?, UserSchema.Required("amount")),
                   UserSchema.ErrorIf(d.conversionRate.None?, UserSchema.Required("conversionRate")),
                   UserSchema.ErrorIf(d.sender.None?, UserSchema.Required("sender")),
                   UserSchema.ErrorIf(d.receiver.None?, UserSchema.Required("receiver")),
                   UserSchema.RequiredError("region", d.region),
                   StatusError(d.status));
  }

  /** `amount` and `conversionRate` are reported exactly when missing. */
  lemma ErrorsNameAmounts(d: TransactionDoc)
    ensures UserSchema.Required("amount") in Errors(d) <==> d.amount.None?
    ensures UserSchema.Required("conversionRate") in Errors(d) <==> d.conversionRate.None?
  {
    ErrorsParts(d);
  }

  /** `sender` and `receiver` are reported exactly when missing. */
  lemma ErrorsNameParties(d: TransactionDoc)
    ensures UserSchema.Required("sender") in Errors(d) <==> d.sender.None?
    ensures UserSchema.Required("receiver") in Errors(d) <==> d.receiver.None?
  {
    ErrorsParts(d);
  }

  /** `region` is reported exactly when missing or empty, and a status exactly when outside the enum. */
  lemma ErrorsNameRegionAndStatus(d: TransactionDoc)
    ensures UserSchema.Required("region") in Errors(d) <==> !UserSchema.Given(d.region)
    ensures (exists v :: UserSchema.NotInEnum("status", v) in Errors(d)) <==>
      d.status.Some? && ParseStatus(d.status.value).None?
  {
    ErrorsParts(d);
  }

  lemma Concat6Members<T>(a: seq<T>, b: seq<T>, c: seq<T>, d: seq<T>, e: seq<T>, f: seq<T>)
    ensures forall x :: x in a + b + c + d + e + f <==> x in a || x in b || x in c || x in d || x in e || x in f
  {
  }

  /** `new Transaction(doc)` followed by validation, with the defaults filled in. */
  function Validate(d: TransactionDoc, id: Id, now: nat): (r: Result<Transaction, seq<FieldError>>)
    ensures r.Ok? <==> Errors(d) == []
    ensures r.Err? ==> r.error == Errors(d)
    ensures r.Ok? ==>
      && r.value.id == id
      && Some(r.value.amount) == d.amount
      && Some(r.value.conversionRate) == d.conversionRate
      && Some(r.value.sender) == d.sender
      && Some(r.value.receiver) == d.receiver
      && Some(r.value.region) == d.region
      && r.value.currencyFrom == (if d.currencyFrom.Some? then d.currencyFrom.value else "USD")
      && r.value.currencyTo == (if d.currencyTo.Some? then d.currencyTo.value else "USDC")
      && (d.status.None? ==> r.value.status == Pending)
      && (d.status.Some? ==> StatusName(r.value.status) == d.status.value)
      && r.value.createdAt == now && r.value.updatedAt == now
  {
    var es := Errors(d);
    if es != [] then Err(es)
    else
      var status := if d.status.Some? then ParseStatus(d.status.value).value else Pending;
      Ok(Transaction(id, d.amount.value, d.currencyFrom.GetOr(DefaultCurrencyFrom),
                     d.currencyTo.GetOr(DefaultCurrencyTo), d.conversionRate.value,
                     d.sender.value, d.receiver.value, d.region.value, status, now, now))
  }

  /** No range constraint: zero and negative amounts are accepted like any other. */
  lemma NonPositiveAmountAccepted(amount: int, rate: int, sender: Id, receiver: Id, region: string, id: Id, now: nat)
    requires amount <= 0 && region != ""
    ensures
      var d := TransactionDoc(Some(amount), None, None, Some(rate), Some(sender), Some(receiver), Some(region), None);
      Validate(d, id, now).Ok? && Validate(d, id, now).value.amount == amount
  {
  }

  /** A record missing any required field is rejected, whatever else it carries. */
  lemma MissingRequiredRejected(d: TransactionDoc, id: Id, now: nat)
    requires d.amount.None? || d.conversionRate.None? || d.sender.None? || d.receiver.None? || d.region.None?
    ensures Validate(d, id, now).Err?
  {
  }
}
