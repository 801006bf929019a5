/**
  The two collections behind the HTTP layer and the four operations the route
  handlers perform on them. The store's own primitives (`findOneAndUpdate`
  with `upsert`, `create`, `find().sort`) are outside this program; their
  behaviour is stated here as the functions `Upsert`, `NewPayment` and
  `SortNewestFirst`, and `Database` threads them through the handlers'
  validation and error paths. A natural-number clock stands in for the
  timestamps Mongoose writes into `createdAt` and `updatedAt`.
*/
module Store {
  import opened Wrappers
  import opened JsValues
  import opened Validation
  import opened Ordering

  /** A document of `userSchema`, with Mongoose's timestamps. */
  datatype User = User(name: Value, phone: Value, createdAt: nat, updatedAt: nat)

  /** A document of `paymentSchema`; `issueType` is `Undefined` when absent. */
  datatype Payment = Payment(
    name: Value,
    phone: Value,
    planTitle: Value,
    amount: Value,
    screenshotBase64: Value,
    issueType: Value,
    createdAt: nat,
    updatedAt: nat)

  /** What a handler answers: 200 with the record(s), 400 with a fixed message, or 500 with the store's message. */
  datatype Outcome<+T> = Ok(value: T) | ValidationError(message: string) | StoreError(message: string)

  function UserCreatedAt(u: User): (t: nat) { u.createdAt }

  function PaymentCreatedAt(p: Payment): (t: nat) { p.createdAt }

  /**
    No two users share a phone. The schema declares no unique index; for
    requests handled one after another this holds because every write is an
    upsert on `phone`. Racing first registrations of one phone can break it.
  */
  ghost predicate PhonesUnique(users: seq<User>) {
    forall i, j | 0 <= i < j < |users| :: users[i].phone != users[j].phone
  }

  /** `u` is stored in `users` and is the only user with that phone. */
  ghost predicate OnlyRecordFor(users: seq<User>, phone: Value, u: User) {
    && u.phone == phone
    && exists k | 0 <= k < |users| :: users[k] == u && forall j | 0 <= j < |users| && users[j].phone == phone :: j == k
  }

  /** The first user, in natural order, whose phone equals `phone` (the filter `{ phone }`). */
  function FindByPhone(users: seq<User>, phone: Value): (k: Option<nat>)
    ensures k.Some? ==> k.value < |users| && users[k.value].phone == phone
    ensures k.Some? ==> forall j | 0 <= j < k.value :: users[j].phone != phone
    ensures k.None? <==> forall j | 0 <= j < |users| :: users[j].phone != phone
  {
    if |users| == 0 then None
    else if users[0].phone == phone then Some(0)
    else
      match FindByPhone(users[1..], phone)
      case None => None
      case Some(k) => Some(k + 1)
  }

  /**
    `findOneAndUpdate({ phone }, { name, phone }, { upsert: true, new: true })`
    at time `now`: the first user with that phone gets the new name and an
    updated `updatedAt`, keeping its place and its `createdAt`; when there is
    none, a new user is appended. Returns the collection after the write and
    the post-write document.
  */
  function Upsert(users: seq<User>, name: Value, phone: Value, now: nat): (r: (seq<User>, User))
    ensures r.1.name == name && r.1.phone == phone && r.1.updatedAt == now
    ensures |users| <= |r.0| && r.1 in r.0
    ensures forall i | 0 <= i < |users| && users[i].phone != phone :: r.0[i] == users[i]
    ensures (exists i | 0 <= i < |users| :: users[i].phone == phone) ==>
      |r.0| == |users| && exists i | 0 <= i < |users| :: users[i].phone == phone && r.1.createdAt == users[i].createdAt
    ensures (forall i | 0 <= i < |users| :: users[i].phone != phone) ==>
      r.0 == users + [r.1] && r.1.createdAt == now
  {
    match FindByPhone(users, phone)
    case Some(k) =>
      var u := users[k].(name := name, phone := phone, updatedAt := now);
      var next := users[k := u];
      assert next[k] == u;
      (next, u)
    case None =>
      var u := User(name, phone, now, now);
      (users + [u], u)
  }

  /** After an upsert on a collection with unique phones, phones are still unique. */
  lemma UpsertKeepsPhonesUnique(users: seq<User>, name: Value, phone: Value, now: nat)
    requires PhonesUnique(users)
    ensures PhonesUnique(Upsert(users, name, phone, now).0)
  {
    var next := Upsert(users, name, phone, now).0;
    forall i, j | 0 <= i < j < |next| ensures next[i].phone != next[j].phone {
      match FindByPhone(users, phone)
      case Some(k) =>
        assert next == users[k := next[k]];
      case None =>
        assert next == users + [next[|users|]];
    }
  }

  /** After an upsert on a collection with unique phones, exactly one user has that phone, and it is the returned document. */
  lemma UpsertLeavesOneRecordForPhone(users: seq<User>, name: Value, phone: Value, now: nat)
    requires PhonesUnique(users)
    ensures OnlyRecordFor(Upsert(users, name, phone, now).0, phone, Upsert(users, name, phone, now).1)
  {
    var (next, u) := Upsert(users, name, phone, now);
    UpsertKeepsPhonesUnique(users, name, phone, now);
  }

  /**
    Registering the same name and phone a second time changes nothing but
    `updatedAt`: same length, same documents in the same places.
  */
  lemma UpsertTwiceIsUpsertOnce(users: seq<User>, name: Value, phone: Value, t1: nat, t2: nat)
    ensures
      var once := Upsert(users, name, phone, t1).0;
      var twice := Upsert(once, name, phone, t2).0;
      |twice| == |once| && forall i | 0 <= i < |once| :: twice[i] == once[i].(updatedAt := twice[i].updatedAt)
  {
    var once := Upsert(users, name, phone, t1).0;
    match FindByPhone(users, phone)
    case Some(k) =>
      assert FindByPhone(once, phone) == Some(k) by {
        assert once[k].phone == phone;
        assert forall j | 0 <= j < k :: once[j] == users[j];
      }
    case None =>
      assert FindByPhone(once, phone) == Some(|users|) by {
        assert once[|users|].phone == phone;
        assert forall j | 0 <= j < |users| :: once[j] == users[j];
      }
  }

  /** The collection invariant the users' collection keeps under every operation. */
  ghost predicate UsersWellFormed(users: seq<User>, clock: nat) {
    && PhonesUnique(users)
    && StrictlyAscending(users, UserCreatedAt)
    && forall i | 0 <= i < |users| ::
         && users[i].createdAt <= users[i].updatedAt < clock
         && RegisterAccepts(RegisterRequest(users[i].name, users[i].phone))
  }

  /** An accepted registration written at the current clock keeps the users' invariant, with the clock advanced. */
  lemma UpsertPreservesWellFormed(users: seq<User>, req: RegisterRequest, now: nat)
    requires UsersWellFormed(users, now)
    requires RegisterAccepts(req)
    ensures UsersWellFormed(Upsert(users, req.name, req.phone, now).0, now + 1)
  {
    var next := Upsert(users, req.name, req.phone, now).0;
    UpsertKeepsPhonesUnique(users, req.name, req.phone, now);
    match FindByPhone(users, req.phone)
    case Some(k) =>
      assert next == users[k := next[k]];
      assert next[k].createdAt == users[k].createdAt;
      assert StrictlyAscending(next, UserCreatedAt) by {
        forall i, j | 0 <= i < j < |next| ensures UserCreatedAt(next[i]) < UserCreatedAt(next[j]) {
          assert UserCreatedAt(users[i]) < UserCreatedAt(users[j]);
        }
      }
    case None =>
      assert next == users + [next[|users|]];
      assert StrictlyAscending(next, UserCreatedAt) by {
        forall i, j | 0 <= i < j < |next| ensures UserCreatedAt(next[i]) < UserCreatedAt(next[j]) {
          if j < |users| { assert UserCreatedAt(users[i]) < UserCreatedAt(users[j]); }
        }
      }
  }

  /** The request whose fields a payment document stores. */
  function RequestOf(p: Payment): (req: PaymentRequest) {
    PaymentRequest(p.name, p.phone, p.planTitle, p.amount, p.screenshotBase64, p.issueType)
  }

  /** `Payment.create({ name, phone, planTitle, amount, screenshotBase64, issueType })` at time `now`. */
  function NewPayment(req: PaymentRequest, now: nat): (p: Payment)
    ensures RequestOf(p) == req
    ensures p.createdAt == now && p.updatedAt == now
  {
    Payment(req.name, req.phone, req.planTitle, req.amount, req.screenshotBase64, req.issueType, now, now)
  }

  /** The collection invariant of the payments' collection: every document passed the payment check when written. */
  ghost predicate PaymentsWellFormed(payments: seq<Payment>, clock: nat) {
    && StrictlyAscending(payments, PaymentCreatedAt)
    && forall i | 0 <= i < |payments| ::
         && payments[i].createdAt == payments[i].updatedAt < clock
         && PaymentAccepts(RequestOf(payments[i]))
  }

  /** Appending an accepted payment written at the current clock keeps the payments' invariant, with the clock advanced. */
  lemma AppendPreservesWellFormed(payments: seq<Payment>, req: PaymentRequest, now: nat)
    requires PaymentsWellFormed(payments, now)
    requires PaymentAccepts(req)
    ensures PaymentsWellFormed(payments + [NewPayment(req, now)], now + 1)
  {
    var next := payments + [NewPayment(req, now)];
    forall i, j | 0 <= i < j < |next| ensures PaymentCreatedAt(next[i]) < PaymentCreatedAt(next[j]) {
      if j < |payments| { assert PaymentCreatedAt(payments[i]) < PaymentCreatedAt(payments[j]); }
    }
  }

  /** The two collections as the document store holds them. */
  class Database {
    var users: seq<User>
    var payments: seq<Payment>
    var clock: nat

    ghost predicate Valid()
      reads this
    {
      UsersWellFormed(users, clock) && PaymentsWellFormed(payments, clock)
    }

    constructor ()
      ensures Valid()
      ensures users == [] && payments == [] && clock == 0
    {
      users, payments, clock := [], [], 0;
    }

    /** `POST /register`; `fault` is the error the store raises, if it does. */
    method Register(req: RegisterRequest, fault: Option<string>) returns (r: Outcome<User>)
      requires Valid()
      modifies this
      ensures Valid()
      ensures payments == old(payments)
      ensures !RegisterAccepts(req) ==> r == ValidationError(RegisterMessage)
      ensures RegisterAccepts(req) && fault.Some? ==> r == StoreError(fault.value)
      ensures r.Ok? <==> RegisterAccepts(req) && fault.None?
      ensures !r.Ok? ==> users == old(users) && clock == old(clock)
      ensures r.Ok? ==> (users, r.value) == Upsert(old(users), req.name, req.phone, old(clock)) && clock == old(clock) + 1
      ensures r.Ok? ==> r.value.name == req.name && OnlyRecordFor(users, req.phone, r.value)
      ensures r.Ok? ==> forall i | 0 <= i < |old(users)| && old(users)[i].phone != req.phone :: users[i] == old(users)[i]
    {
      if !RegisterAccepts(req) {
        return ValidationError(RegisterMessage);
      }
      if fault.Some? {
        return StoreError(fault.value);
      }
      UpsertPreservesWellFormed(users, req, clock);
      UpsertLeavesOneRecordForPhone(users, req.name, req.phone, clock);
      var (next, user) := Upsert(users, req.name, req.phone, clock);
      users, clock := next, clock + 1;
      r := Ok(user);
    }

    /** `POST /payment-proof`; `fault` is the error the store raises, if it does. */
    method SubmitPayment(req: PaymentRequest, fault: Option<string>) returns (r: Outcome<Payment>)
      requires Valid()
      modifies this
      ensures Valid()
      ensures users == old(users)
      ensures !PaymentAccepts(req) ==> r == ValidationError(PaymentMessage)
      ensures PaymentAccepts(req) && fault.Some? ==> r == StoreError(fault.value)
      ensures r.Ok? <==> PaymentAccepts(req) && fault.None?
      ensures !r.Ok? ==> payments == old(payments) && clock == old(clock)
      ensures r.Ok? ==> r.value == NewPayment(req, old(clock)) && payments == old(payments) + [r.value]
      ensures r.Ok? ==> clock == old(clock) + 1
    {
      if !PaymentAccepts(req) {
        return ValidationError(PaymentMessage);
      }
      if fault.Some? {
        return StoreError(fault.value);
      }
      var payment := NewPayment(req, clock);
      AppendPreservesWellFormed(payments, req, clock);
      payments, clock := payments + [payment], clock + 1;
      r := Ok(payment);
    }

    /** `GET /users`: every user, newest first. */
    method ListUsers(fault: Option<string>) returns (r: Outcome<seq<User>>)
      requires Valid()
      ensures fault.Some? ==> r == StoreError(fault.value)
      ensures fault.None? ==> r.Ok?
      ensures r.Ok? ==> multiset(r.value) == multiset(users) && NewestFirst(r.value, UserCreatedAt)
      ensures r.Ok? ==> r.value == Reverse(users)
    {
      if fault.Some? {
        return StoreError(fault.value);
      }
      SortOfAscendingIsReverse(users, UserCreatedAt);
      r := Ok(SortNewestFirst(users, UserCreatedAt));
    }

    /** `GET /payments`: every payment proof, newest first. */
    method ListPayments(fault: Option<string>) returns (r: Outcome<seq<Payment>>)
      requires Valid()
      ensures fault.Some? ==> r == StoreError(fault.value)
      ensures fault.None? ==> r.Ok?
      ensures r.Ok? ==> multiset(r.value) == multiset(payments) && NewestFirst(r.value, PaymentCreatedAt)
      ensures r.Ok? ==> r.value == Reverse(payments)
    {
      if fault.Some? {
        return StoreError(fault.value);
      }
      SortOfAscendingIsReverse(payments, PaymentCreatedAt);
      r := Ok(SortNewestFirst(payments, PaymentCreatedAt));
    }
  }

  /** Re-registering a phone overwrites the name: Alice, then Alicia, on one phone. */
  method RegisterWalkthrough() {
    var db := new Database();
    var r1 := db.Register(RegisterRequest(Str("Alice"), Str("555-1")), None);
    var r2 := db.Register(RegisterRequest(Str("Alicia"), Str("555-1")), None);
    assert r2.Ok? && r2.value.name == Str("Alicia");
    var listed := db.ListUsers(None);
    assert listed.Ok? && |listed.value| == 1 && listed.value[0].name == Str("Alicia");
    var r3 := db.Register(RegisterRequest(Str("Bob"), Str("")), None);
    assert r3 == ValidationError(RegisterMessage);
  }

  /** A zero amount is stored, an empty screenshot is refused, and the listing is newest first. */
  method PaymentWalkthrough() {
    var db := new Database();
    var p1 := db.SubmitPayment(PaymentRequest(Str("A"), Str("1"), Str("Basic"), Num(0.0), Str("abc"), Undefined), None);
    assert p1.Ok? && p1.value.amount == Num(0.0) && p1.value.issueType == Undefined;
    var p2 := db.SubmitPayment(PaymentRequest(Str("A"), Str("1"), Str("Basic"), Num(10.0), Str(""), Undefined), None);
    assert p2 == ValidationError(PaymentMessage);
    var p3 := db.SubmitPayment(PaymentRequest(Str("B"), Str("2"), Str("Pro"), Num(5.0), Str("xyz"), Str("refund")), None);
    assert db.payments == [p1.value, p3.value];
    var payments := db.ListPayments(None);
    assert payments.Ok? && payments.value == Reverse([p1.value, p3.value]);
    assert payments.value[0] == p3.value && payments.value[1] == p1.value;
  }
}
