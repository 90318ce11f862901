/**
 * The "Add New Transaction" dialog: a small form with two currency selects
 * that can never hold the same currency, a swap button, and a submit that
 * posts the form together with the sender id read from browser storage.
 */
module AddTransactionDialog {
  import opened Wrappers
  import opened Domain
  import opened Http
  import TransactionSchema
  import TransactionsController
  import AuthMiddleware
  import AuthSlice
  import ClientErrors

  const Currencies: seq<string> := ["USD", "USDC"]

  datatype Form = Form(amount: string, currencyFrom: string, currencyTo: string, receiverUsername: string, status: string)

  const InitialForm: Form := Form("", "USD", "USDC", "", "pending")

  /** The four inputs, named as their `name` attributes. */
  datatype Field = Amount | CurrencyFrom | CurrencyTo | ReceiverUsername

  /** `handleInputChange`: the named field takes the value, the others stay. */
  function SetField(f: Form, field: Field, value: string): (r: Form)
    ensures field == Amount ==> r == f.(amount := value)
    ensures field == CurrencyFrom ==> r == f.(currencyFrom := value)
    ensures field == CurrencyTo ==> r == f.(currencyTo := value)
    ensures field == ReceiverUsername ==> r == f.(receiverUsername := value)
  {
    match field
    case Amount => f.(amount := value)
    case CurrencyFrom => f.(currencyFrom := value)
    case CurrencyTo => f.(currencyTo := value)
    case ReceiverUsername => f.(receiverUsername := value)
  }

  /** `handleReverseCurrencies`: swap the two currencies. */
  function Reverse(f: Form): (r: Form)
    ensures r.currencyFrom == f.currencyTo && r.currencyTo == f.currencyFrom
    ensures r.(currencyFrom := f.currencyFrom, currencyTo := f.currencyTo) == f
  {
    f.(currencyFrom := f.currencyTo, currencyTo := f.currencyFrom)
  }

  lemma ReverseTwice(f: Form)
    ensures Reverse(Reverse(f)) == f
  {
  }

  /** `getDisabledCurrencies`: a select disables the currency the other select holds. */
  function DisabledCurrencies(f: Form, field: Field): (ds: seq<string>)
    ensures field == CurrencyFrom ==> ds == [f.currencyTo]
    ensures field != CurrencyFrom ==> ds == [f.currencyFrom]
  {
    if field == CurrencyFrom then [f.currencyTo] else [f.currencyFrom]
  }

  /** The two selects hold two different currencies of the offered ones. */
  predicate CurrenciesValid(f: Form) {
    f.currencyFrom in Currencies && f.currencyTo in Currencies && f.currencyFrom != f.currencyTo
  }

  /** What the user can do with the currency controls: pick an option of a select, or swap. */
  datatype CurrencyEvent = Pick(field: Field, option: nat) | Swap

  /** A pick of a disabled option does nothing; other fields are not currency selects. */
  function CurrencyStep(f: Form, e: CurrencyEvent): (r: Form)
    ensures e.Swap? ==> r == Reverse(f)
    ensures e.Pick? && (e.field == CurrencyFrom || e.field == CurrencyTo) && e.option < |Currencies| ==>
      if Currencies[e.option] in DisabledCurrencies(f, e.field) then r == f
      else r == SetField(f, e.field, Currencies[e.option])
    ensures e.Pick? && (e.field == Amount || e.field == ReceiverUsername || e.option >= |Currencies|) ==> r == f
  {
    match e
    case Swap => Reverse(f)
    case Pick(field, k) =>
      if (field == CurrencyFrom || field == CurrencyTo) && k < |Currencies| &&
         Currencies[k] !in DisabledCurrencies(f, field)
      then SetField(f, field, Currencies[k])
      else f
  }

  /** The disabled options keep the two currencies apart, from the initial form on. */
  lemma CurrencyStepKeepsValid(f: Form, e: CurrencyEvent)
    requires CurrenciesValid(f)
    ensures CurrenciesValid(CurrencyStep(f, e))
  {
  }

  lemma {:induction false} CurrenciesAlwaysValid(es: seq<CurrencyEvent>)
    ensures CurrenciesValid(Replay(InitialForm, es))
  {
    if es != [] {
      CurrenciesAlwaysValid(es[..|es| - 1]);
      CurrencyStepKeepsValid(Replay(InitialForm, es[..|es| - 1]), es[|es| - 1]);
    }
  }

  function Replay(f: Form, es: seq<CurrencyEvent>): Form {
    if es == [] then f else CurrencyStep(Replay(f, es[..|es| - 1]), es[|es| - 1])
  }

  /** The submit button is disabled while a field is empty or a request is running. */
  function SubmitDisabled(f: Form, loading: bool): (d: bool)
    ensures !d <==> !loading && f.amount != "" && f.currencyFrom != "" && f.currencyTo != "" && f.receiverUsername != ""
  {
    f.amount == "" || f.currencyFrom == "" || f.currencyTo == "" || f.receiverUsername == "" || loading
  }

  /**
   * The document the server builds from the posted body
   * `{...transaction, sender: localStorage.getItem("userId")}`: the amount
   * text cast to a number (`castAmount`), the currencies and status as
   * sent, the stored sender id; `receiverUsername` is not a schema field and
   * is dropped, and nothing supplies `conversionRate`, `receiver` or `region`.
   */
  function PostedDoc(f: Form, castAmount: string -> Option<int>, storedSender: Option<Id>)
    : (d: TransactionSchema.TransactionDoc)
    ensures d.conversionRate.None? && d.receiver.None? && d.region.None?
    ensures d.amount == castAmount(f.amount) && d.sender == storedSender
    ensures d.currencyFrom == Some(f.currencyFrom) && d.currencyTo == Some(f.currencyTo) && d.status == Some(f.status)
  {
    TransactionSchema.TransactionDoc(castAmount(f.amount), Some(f.currencyFrom), Some(f.currencyTo), None,
                                     storedSender, None, None, Some(f.status))
  }

  /**
   * Whatever the form holds, who submits it and how the database behaves,
   * the server rejects the dialog's transaction and stores nothing.
   */
  lemma SubmitAlwaysRejected(f: Form, castAmount: string -> Option<int>, storedSender: Option<Id>,
                             header: Option<string>, st: Store, jwt: AuthMiddleware.Jwt, lookupFails: bool,
                             now: nat, saveFault: Option<string>, auditFault: Option<string>)
    ensures
      var h := TransactionsController.CreateRoute(header, PostedDoc(f, castAmount, storedSender), st, jwt,
                                                  lookupFails, now, saveFault, auditFault);
      h.response.Failure? && h.state == st
  {
    TransactionSchema.MissingRequiredRejected(PostedDoc(f, castAmount, storedSender), st.nextId, now);
  }

  /** The session store never writes the "userId" key the dialog reads its sender from. */
  lemma SenderIdNeverStored(s: AuthSlice.Session, token: string, user: map<string, AuthSlice.Field>)
    requires "userId" !in s.storage
    ensures "userId" !in AuthSlice.Login(s, token, user).storage
    ensures "userId" !in AuthSlice.Logout(s).storage
  {
  }

  const FallbackError: string := "Failed to create transaction"

  /** The alert text: `err.response?.data?.message || "Failed to create transaction"`. */
  function ErrorText(e: ClientErrors.RequestError): (t: string)
    ensures ClientErrors.Truthy(e.dataMessage) ==> t == e.dataMessage.value
    ensures !ClientErrors.Truthy(e.dataMessage) ==> t == FallbackError
  {
    if ClientErrors.Truthy(e.dataMessage) then e.dataMessage.value else FallbackError
  }

  /** The dialog's state besides the form. */
  datatype Dialog = Dialog(form: Form, loading: bool, error: Option<string>, open: bool)

  /**
   * `handleSubmit` once the request has settled: success resets the form and
   * closes the dialog; failure keeps the form and shows the error text.
   * `loading` ends false either way.
   */
  function Settle(d: Dialog, outcome: Result<Transaction, ClientErrors.RequestError>): (r: Dialog)
    ensures !r.loading
    ensures outcome.Ok? ==> r.form == InitialForm && !r.open && r.error.None?
    ensures outcome.Err? ==> r.form == d.form && r.open == d.open && r.error == Some(ErrorText(outcome.error))
  {
    if outcome.Ok? then Dialog(InitialForm, false, None, false)
    else d.(loading := false, error := Some(ErrorText(outcome.error)))
  }

  /** Since the server's error bodies carry no `message`, a rejected submit always shows the fallback text. */
  lemma RejectionShowsFallback(d: Dialog, r: Response<Transaction>, clientMessage: string)
    requires r.Failure?
    ensures Settle(d, Err(ClientErrors.FromFailure(r, clientMessage))).error == Some(FallbackError)
  {
  }
}
