/**
  The two request validators of the HTTP layer. Each handler destructures the
  fields it needs from the JSON body and rejects the request with HTTP 400 and
  a fixed message before touching the store.
*/
module Validation {
  import opened JsValues

  /** The body of `POST /register`. */
  datatype RegisterRequest = RegisterRequest(name: Value, phone: Value)

  /** The body of `POST /payment-proof`; `issueType` is `Undefined` when omitted. */
  datatype PaymentRequest = PaymentRequest(
    name: Value,
    phone: Value,
    planTitle: Value,
    amount: Value,
    screenshotBase64: Value,
    issueType: Value)

  const RegisterMessage: string := "Name and phone required"
  const PaymentMessage: string := "name, phone, planTitle, amount, screenshotBase64 required"

  /** The negation of `!name || !phone`. */
  function RegisterAccepts(req: RegisterRequest): (ok: bool)
    ensures ok <==> req.name !in FalsyValues && req.phone !in FalsyValues
  {
    !(!Truthy(req.name) || !Truthy(req.phone))
  }

  /**
    The negation of the payment guard: falsy checks on the three text fields,
    `undefined`/`null`/`""` on the screenshot, and only `undefined`/`null` on
    the amount.
  */
  function PaymentAccepts(req: PaymentRequest): (ok: bool)
    ensures ok <==>
      && req.name !in FalsyValues
      && req.phone !in FalsyValues
      && req.planTitle !in FalsyValues
      && req.screenshotBase64 !in {Undefined, Null, Str("")}
      && req.amount !in {Undefined, Null}
  {
    !(|| !Truthy(req.name)
      || !Truthy(req.phone)
      || !Truthy(req.planTitle)
      || Nullish(req.screenshotBase64)
      || req.screenshotBase64 == Str("")
      || Nullish(req.amount))
  }

  /** A register request with any falsy field is refused. */
  lemma RegisterRejectsFalsy(req: RegisterRequest)
    requires req.name in FalsyValues || req.phone in FalsyValues
    ensures !RegisterAccepts(req)
  {
  }

  /** `0` is falsy, yet the amount guard accepts it; `name`, `phone` and `planTitle` refuse it. */
  lemma ZeroAmountAccepted(req: PaymentRequest)
    requires Truthy(req.name) && Truthy(req.phone) && Truthy(req.planTitle)
    requires req.screenshotBase64 !in {Undefined, Null, Str("")}
    requires req.amount == Num(0.0)
    ensures !Truthy(req.amount)
    ensures PaymentAccepts(req)
  {
  }

  /** Omitting `issueType` never causes a rejection. */
  lemma IssueTypeIrrelevant(req: PaymentRequest, issue: Value)
    ensures PaymentAccepts(req.(issueType := issue)) == PaymentAccepts(req)
  {
  }

  /**
    The screenshot check is weaker than truthiness: the falsy values `false`
    and `0` pass it, only `undefined`, `null` and `""` are refused.
  */
  lemma ScreenshotCheckAdmitsFalsy(req: PaymentRequest)
    requires Truthy(req.name) && Truthy(req.phone) && Truthy(req.planTitle)
    requires !Nullish(req.amount)
    ensures PaymentAccepts(req.(screenshotBase64 := Bool(false)))
    ensures PaymentAccepts(req.(screenshotBase64 := Num(0.0)))
    ensures !PaymentAccepts(req.(screenshotBase64 := Str("")))
  {
  }

  /** A payment that passes its check carries a name and phone the register check accepts too. */
  lemma PaymentNamePhoneAgreeWithRegister(req: PaymentRequest)
    requires PaymentAccepts(req)
    ensures RegisterAccepts(RegisterRequest(req.name, req.phone))
  {
  }
}
