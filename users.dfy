/** The user service: users with a generated 128-bit id, names, a unique
    e-mail address and a unique 10-digit phone number, created and patched
    through request-body validators and stored in a `users` table whose
    constraints the database enforces at commit time. */
module Users {
  import opened Common

  /** A uuid4 user id, a 128-bit number. Its random generation is a
      parameter of CreateUser. */
  newtype Uuid = x: int | 0 <= x < 0x1_0000_0000_0000_0000_0000_0000_0000_0000

  /** A wall-clock reading. The clock is a parameter of every mutation. */
  type Timestamp = int

  const PhoneMin: int := 1000000000
  const PhoneMax: int := 9999999999
  const PhoneMessage := "Phone number must be exactly 10 digits"
  const EmailMessage := "Invalid email format"

  // ---------------------------------------------------------------------
  // Decimal digits, the meaning of "exactly 10 digits"
  // ---------------------------------------------------------------------

  /** The decimal digits of `n`, most significant first, without leading zeros. */
  function Digits(n: nat): (ds: seq<nat>)
    ensures |ds| >= 1
    ensures forall i :: 0 <= i < |ds| ==> ds[i] < 10
    ensures ds[0] == 0 <==> n == 0
    decreases n
  {
    if n < 10 then [n] else Digits(n / 10) + [n % 10]
  }

  /** The number a sequence of decimal digits denotes. */
  function FromDigits(ds: seq<nat>): nat
  {
    if ds == [] then 0 else 10 * FromDigits(ds[..|ds| - 1]) + ds[|ds| - 1]
  }

  function Pow10(k: nat): (p: nat)
    ensures p >= 1
  {
    if k == 0 then 1 else 10 * Pow10(k - 1)
  }

  /** Reading the digits back gives the number. */
  lemma {:induction false} DigitsRoundTrip(n: nat)
    ensures FromDigits(Digits(n)) == n
    decreases n
  {
    if n >= 10 {
      var ds := Digits(n);
      assert ds == Digits(n / 10) + [n % 10];
      assert ds[..|ds| - 1] == Digits(n / 10);
      DigitsRoundTrip(n / 10);
    }
  }

  /** `n` has at most `k` digits exactly when it is below 10^k. */
  lemma {:induction false} DigitCount(n: nat, k: nat)
    requires k >= 1
    ensures |Digits(n)| <= k <==> n < Pow10(k)
    decreases k
  {
    if n >= 10 {
      assert |Digits(n)| == |Digits(n / 10)| + 1;
      if k == 1 {
        assert Pow10(1) == 10;
      } else {
        DigitCount(n / 10, k - 1);
        var q, p := n / 10, Pow10(k - 1);
        assert n == 10 * q + n % 10;
        assert q < p <==> n < 10 * p;
      }
    }
  }

  /** The range the phone validator accepts is exactly the non-negative
      numbers written with 10 decimal digits. */
  lemma TenDigits(n: int)
    ensures (n >= 0 && |Digits(n)| == 10) <==> PhoneMin <= n <= PhoneMax
  {
    if n >= 0 {
      DigitCount(n, 10);
      DigitCount(n, 9);
      assert Pow10(9) == 1000000000;
      assert Pow10(10) == 10000000000;
    }
  }

  // ---------------------------------------------------------------------
  // Field validators (they run on the request body, before the handler)
  // ---------------------------------------------------------------------

  function ErrorsOf<T>(c: Checked<T>): seq<FieldError>
  {
    if c.Rejected? then c.errors else []
  }

  /** The phone validator of a create request. */
  function ValidatePhNumber(value: int): (r: Checked<int>)
    ensures r.Accepted? <==> PhoneMin <= value <= PhoneMax
    ensures r.Accepted? <==> value >= 0 && |Digits(value)| == 10
    ensures r.Accepted? ==> r.value == value
    ensures r.Rejected? ==> r.errors == [FieldError("ph_number", PhoneMessage)]
  {
    TenDigits(value);
    if PhoneMin <= value <= PhoneMax then Accepted(value)
    else Rejected([FieldError("ph_number", PhoneMessage)])
  }

  /** The phone validator of a patch request: a null value passes, any other
      value is judged exactly as on create. */
  function ValidateUpdatePhNumber(value: Option<int>): (r: Checked<Option<int>>)
    ensures value.None? ==> r == Accepted(None)
    ensures value.Some? ==> (r.Accepted? <==> ValidatePhNumber(value.value).Accepted?)
    ensures value.Some? ==> (r.Accepted? <==> PhoneMin <= value.value <= PhoneMax)
    ensures r.Accepted? ==> r.value == value
    ensures r.Rejected? ==> r.errors == [FieldError("ph_number", PhoneMessage)]
  {
    match value
    case None => Accepted(None)
    case Some(n) =>
      var c := ValidatePhNumber(n);
      if c.Accepted? then Accepted(value) else Rejected(c.errors)
  }

  /** The e-mail validator of a create request. `emailOk` is the check of
      the e-mail validation library with its default settings: the address
      syntax and, by default, a DNS lookup that the domain accepts mail. The
      model takes its answer for an address as fixed over time. */
  function ValidateEmailFormat(value: string, emailOk: string -> bool): (r: Checked<string>)
    ensures r.Accepted? <==> emailOk(value)
    ensures r.Accepted? ==> r.value == value
    ensures r.Rejected? ==> r.errors == [FieldError("email", EmailMessage)]
  {
    if emailOk(value) then Accepted(value) else Rejected([FieldError("email", EmailMessage)])
  }

  /** The e-mail validator of a patch request: a null value passes. */
  function ValidateUpdateEmailFormat(value: Option<string>, emailOk: string -> bool): (r: Checked<Option<string>>)
    ensures value.None? ==> r == Accepted(None)
    ensures value.Some? ==> (r.Accepted? <==> emailOk(value.value))
    ensures r.Accepted? ==> r.value == value
    ensures r.Rejected? ==> r.errors == [FieldError("email", EmailMessage)]
  {
    match value
    case None => Accepted(None)
    case Some(e) =>
      var c := ValidateEmailFormat(e, emailOk);
      if c.Accepted? then Accepted(value) else Rejected(c.errors)
  }

  // ---------------------------------------------------------------------
  // Request bodies and table rows
  // ---------------------------------------------------------------------

  /** The body of a create request: every field is required. */
  datatype UserCreate = UserCreate(firstName: string, lastName: string, email: string, phNumber: int)

  /** The body of a patch request. The outer Option says whether the field
      was sent at all; the inner one is the sent value, which may be null. */
  datatype UserUpdate = UserUpdate(
    firstName: Option<Option<string>>,
    lastName: Option<Option<string>>,
    email: Option<Option<string>>,
    phNumber: Option<Option<int>>)

  /** The patch that sends nothing. */
  const EmptyUpdate := UserUpdate(None, None, None, None)

  /** A row object of the `users` table. Its class validates every
      assignment, so none of these attributes ever holds null. */
  datatype User = User(
    userId: Uuid,
    firstName: string,
    lastName: string,
    email: string,
    phNumber: int,
    createdAt: Timestamp,
    updatedAt: Timestamp)

  /** Both create validators: the errors are reported field by field, the
      e-mail before the phone number, and only for the fields that fail. */
  function ValidateUserCreate(c: UserCreate, emailOk: string -> bool): (r: Checked<UserCreate>)
    ensures r.Accepted? <==> emailOk(c.email) && PhoneMin <= c.phNumber <= PhoneMax
    ensures r.Accepted? ==> r.value == c
    ensures r.Rejected? ==> |r.errors| >= 1
    ensures r.Rejected? ==>
      (FieldError("email", EmailMessage) in r.errors <==> !emailOk(c.email)) &&
      (FieldError("ph_number", PhoneMessage) in r.errors <==> !(PhoneMin <= c.phNumber <= PhoneMax))
    ensures r.Rejected? ==>
      forall e :: e in r.errors ==> e == FieldError("email", EmailMessage) || e == FieldError("ph_number", PhoneMessage)
    ensures r.Rejected? ==>
      |r.errors| == (if emailOk(c.email) then 0 else 1) + (if PhoneMin <= c.phNumber <= PhoneMax then 0 else 1)
  {
    var e := ValidateEmailFormat(c.email, emailOk);
    var p := ValidatePhNumber(c.phNumber);
    if e.Accepted? && p.Accepted? then Accepted(c) else Rejected(ErrorsOf(e) + ErrorsOf(p))
  }

  /** The patch validators run only on the fields that were sent, and let a
      sent null through. */
  function ValidateUserUpdate(p: UserUpdate, emailOk: string -> bool): (r: Checked<UserUpdate>)
    ensures r.Accepted? <==>
      (p.email.Some? && p.email.value.Some? ==> emailOk(p.email.value.value)) &&
      (p.phNumber.Some? && p.phNumber.value.Some? ==> PhoneMin <= p.phNumber.value.value <= PhoneMax)
    ensures r.Accepted? ==> r.value == p
    ensures p.email.None? && p.phNumber.None? ==> r.Accepted?
    ensures r.Rejected? ==> |r.errors| >= 1
    ensures r.Rejected? ==>
      (FieldError("email", EmailMessage) in r.errors <==>
        p.email.Some? && p.email.value.Some? && !emailOk(p.email.value.value)) &&
      (FieldError("ph_number", PhoneMessage) in r.errors <==>
        p.phNumber.Some? && p.phNumber.value.Some? && !(PhoneMin <= p.phNumber.value.value <= PhoneMax))
    ensures r.Rejected? ==>
      forall e :: e in r.errors ==> e == FieldError("email", EmailMessage) || e == FieldError("ph_number", PhoneMessage)
    ensures r.Rejected? ==>
      |r.errors| ==
        (if p.email.Some? && p.email.value.Some? && !emailOk(p.email.value.value) then 1 else 0) +
        (if p.phNumber.Some? && p.phNumber.value.Some? && !(PhoneMin <= p.phNumber.value.value <= PhoneMax) then 1 else 0)
  {
    var e := if p.email.Some? then ValidateUpdateEmailFormat(p.email.value, emailOk) else Accepted(None);
    var n := if p.phNumber.Some? then ValidateUpdatePhNumber(p.phNumber.value) else Accepted(None);
    if e.Accepted? && n.Accepted? then Accepted(p) else Rejected(ErrorsOf(e) + ErrorsOf(n))
  }

  /** The row a create request builds: a new id, and both timestamps taken
      from the clock. */
  function NewUser(userId: Uuid, c: UserCreate, now: Timestamp): (u: User)
    ensures u.userId == userId && u.createdAt == now && u.updatedAt == now
    ensures u.firstName == c.firstName && u.lastName == c.lastName
    ensures u.email == c.email && u.phNumber == c.phNumber
  {
    User(userId, c.firstName, c.lastName, c.email, c.phNumber, now, now)
  }

  // ---------------------------------------------------------------------
  // Merge-patch: the merged row, and the assignment loop that builds it
  // ---------------------------------------------------------------------

  predicate NothingSent(p: UserUpdate)
  {
    p.firstName.None? && p.lastName.None? && p.email.None? && p.phNumber.None?
  }

  /** Some field was sent as an explicit null. */
  predicate SendsNull(p: UserUpdate)
  {
    p.firstName == Some(None) || p.lastName == Some(None) ||
    p.email == Some(None) || p.phNumber == Some(None)
  }

  /** Every sent field holds a value the row class accepts on assignment:
      not null, and passing the row's own e-mail and phone validators. */
  predicate Assignable(p: UserUpdate, emailOk: string -> bool)
  {
    (p.firstName.Some? ==> p.firstName.value.Some?) &&
    (p.lastName.Some? ==> p.lastName.value.Some?) &&
    (p.email.Some? ==> p.email.value.Some? && emailOk(p.email.value.value)) &&
    (p.phNumber.Some? ==> p.phNumber.value.Some? && PhoneMin <= p.phNumber.value.value <= PhoneMax)
  }

  /** The stored value, or the sent one when a value was sent. */
  function SentOr<T>(stored: T, sent: Option<Option<T>>): T
  {
    if sent.Some? && sent.value.Some? then sent.value.value else stored
  }

  /** The row after a patch, field by field, or `None` when an assignment is
      refused. A sent field takes the sent value, an unsent one keeps the
      stored value, the id and the creation time are not patchable, and the
      modification time moves to `now` as soon as one field is assigned. */
  function Merged(u: User, p: UserUpdate, now: Timestamp, emailOk: string -> bool): (r: Option<User>)
    ensures r.Some? <==> Assignable(p, emailOk)
    ensures r.Some? ==> r.value.userId == u.userId && r.value.createdAt == u.createdAt
    ensures r.Some? && p.firstName.None? ==> r.value.firstName == u.firstName
    ensures r.Some? && p.firstName.Some? ==> p.firstName.value == Some(r.value.firstName)
    ensures r.Some? && p.lastName.None? ==> r.value.lastName == u.lastName
    ensures r.Some? && p.lastName.Some? ==> p.lastName.value == Some(r.value.lastName)
    ensures r.Some? && p.email.None? ==> r.value.email == u.email
    ensures r.Some? && p.email.Some? ==> p.email.value == Some(r.value.email)
    ensures r.Some? && p.phNumber.None? ==> r.value.phNumber == u.phNumber
    ensures r.Some? && p.phNumber.Some? ==> p.phNumber.value == Some(r.value.phNumber)
    ensures r.Some? ==> r.value.updatedAt == if NothingSent(p) then u.updatedAt else now
    ensures NothingSent(p) ==> r == Some(u)
  {
    if !Assignable(p, emailOk) then None
    else
      Some(User(u.userId,
                SentOr(u.firstName, p.firstName),
                SentOr(u.lastName, p.lastName),
                SentOr(u.email, p.email),
                SentOr(u.phNumber, p.phNumber),
                u.createdAt,
                if NothingSent(p) then u.updatedAt else now))
  }

  /** Once the patch validators have accepted a patch, the row class refuses
      an assignment only for an explicit null. */
  lemma ValidatedPatchAssignable(p: UserUpdate, emailOk: string -> bool)
    requires ValidateUserUpdate(p, emailOk).Accepted?
    ensures Assignable(p, emailOk) <==> !SendsNull(p)
  {
  }

  /** One entry of the `exclude_unset` dictionary of a patch. */
  datatype Assignment =
    | SetFirstName(name: Option<string>)
    | SetLastName(name: Option<string>)
    | SetEmail(address: Option<string>)
    | SetPhNumber(number: Option<int>)

  /** The fields the client sent, in declaration order. */
  function SentFields(p: UserUpdate): (fs: seq<Assignment>)
    ensures fs == [] <==> NothingSent(p)
  {
    (if p.firstName.Some? then [SetFirstName(p.firstName.value)] else []) +
    (if p.lastName.Some? then [SetLastName(p.lastName.value)] else []) +
    (if p.email.Some? then [SetEmail(p.email.value)] else []) +
    (if p.phNumber.Some? then [SetPhNumber(p.phNumber.value)] else [])
  }

  /** One `setattr` on the row. The row class validates the assignment: the
      value must have the column's type, so a null is refused, and the
      e-mail and phone validators run again. An accepted assignment is
      followed by the hook that stamps the modification time; a refused one
      raises and leaves the row as it was (`None`). */
  function Setattr(u: User, a: Assignment, now: Timestamp, emailOk: string -> bool): (r: Option<User>)
    ensures r.Some? ==> r.value.userId == u.userId && r.value.createdAt == u.createdAt
    ensures r.Some? ==> r.value.updatedAt == now
    ensures a.SetFirstName? ==> (r.Some? <==> a.name.Some?)
    ensures a.SetFirstName? && r.Some? ==> r.value == u.(firstName := a.name.value, updatedAt := now)
    ensures a.SetLastName? ==> (r.Some? <==> a.name.Some?)
    ensures a.SetLastName? && r.Some? ==> r.value == u.(lastName := a.name.value, updatedAt := now)
    ensures a.SetEmail? ==> (r.Some? <==> a.address.Some? && emailOk(a.address.value))
    ensures a.SetEmail? && r.Some? ==> r.value == u.(email := a.address.value, updatedAt := now)
    ensures a.SetPhNumber? ==> (r.Some? <==> a.number.Some? && PhoneMin <= a.number.value <= PhoneMax)
    ensures a.SetPhNumber? && r.Some? ==> r.value == u.(phNumber := a.number.value, updatedAt := now)
  {
    match a
    case SetFirstName(v) =>
      if v.None? then None else Some(u.(firstName := v.value, updatedAt := now))
    case SetLastName(v) =>
      if v.None? then None else Some(u.(lastName := v.value, updatedAt := now))
    case SetEmail(v) =>
      if v.None? || ValidateEmailFormat(v.value, emailOk).Rejected? then None
      else Some(u.(email := v.value, updatedAt := now))
    case SetPhNumber(v) =>
      if v.None? || ValidatePhNumber(v.value).Rejected? then None
      else Some(u.(phNumber := v.value, updatedAt := now))
  }

  /** The assignments `fs`, performed first to last; the first refused one
      raises, so the later ones never run. */
  function Replay(u: User, fs: seq<Assignment>, now: Timestamp, emailOk: string -> bool): (r: Option<User>)
    ensures r.Some? ==> r.value.userId == u.userId && r.value.createdAt == u.createdAt
    ensures fs == [] ==> r == Some(u)
    ensures fs != [] && r.Some? ==> r.value.updatedAt == now
    decreases |fs|
  {
    if fs == [] then Some(u)
    else
      var s := Setattr(u, fs[0], now, emailOk);
      if s.None? then None else Replay(s.value, fs[1..], now, emailOk)
  }

  /** Performing `fs + gs` is performing `fs`, then `gs` on its result. */
  lemma {:induction false} ReplayAppend(u: User, fs: seq<Assignment>, gs: seq<Assignment>, now: Timestamp, emailOk: string -> bool)
    ensures Replay(u, fs + gs, now, emailOk) ==
      var r := Replay(u, fs, now, emailOk);
      if r.None? then None else Replay(r.value, gs, now, emailOk)
    decreases |fs|
  {
    if fs == [] {
      assert fs + gs == gs;
    } else {
      assert (fs + gs)[0] == fs[0];
      assert (fs + gs)[1..] == fs[1..] + gs;
      var s := Setattr(u, fs[0], now, emailOk);
      if s.Some? {
        ReplayAppend(s.value, fs[1..], gs, now, emailOk);
      }
    }
  }

  /** Replaying at most one assignment. */
  lemma ReplayAtMostOne(u: User, fs: seq<Assignment>, now: Timestamp, emailOk: string -> bool)
    requires |fs| <= 1
    ensures Replay(u, fs, now, emailOk) == if fs == [] then Some(u) else Setattr(u, fs[0], now, emailOk)
  {
    if fs != [] {
      assert fs[1..] == [];
    }
  }

  /** Performing the sent assignments one by one yields the merged row, and
      fails exactly when the merge does. */
  lemma ReplayIsMerged(u: User, p: UserUpdate, now: Timestamp, emailOk: string -> bool)
    ensures Replay(u, SentFields(p), now, emailOk) == Merged(u, p, now, emailOk)
  {
    var f := if p.firstName.Some? then [SetFirstName(p.firstName.value)] else [];
    var l := if p.lastName.Some? then [SetLastName(p.lastName.value)] else [];
    var e := if p.email.Some? then [SetEmail(p.email.value)] else [];
    var n := if p.phNumber.Some? then [SetPhNumber(p.phNumber.value)] else [];
    assert SentFields(p) == f + l + e + n;
    ReplayAppend(u, f + l + e, n, now, emailOk);
    ReplayAppend(u, f + l, e, now, emailOk);
    ReplayAppend(u, f, l, now, emailOk);
    ReplayAtMostOne(u, f, now, emailOk);
    var o1 := Replay(u, f, now, emailOk);
    if o1.Some? {
      ReplayAtMostOne(o1.value, l, now, emailOk);
      var o2 := Replay(o1.value, l, now, emailOk);
      if o2.Some? {
        ReplayAtMostOne(o2.value, e, now, emailOk);
        var o3 := Replay(o2.value, e, now, emailOk);
        if o3.Some? {
          ReplayAtMostOne(o3.value, n, now, emailOk);
        }
      }
    }
  }

  /** The handler's loop `for key, value in sent: setattr(row, key, value)`;
      a refused assignment ends it. */
  method ApplyUpdate(u: User, p: UserUpdate, now: Timestamp, emailOk: string -> bool) returns (r: Option<User>)
    ensures r == Merged(u, p, now, emailOk)
  {
    ReplayIsMerged(u, p, now, emailOk);
    var sent := SentFields(p);
    var row := u;
    var i := 0;
    while i < |sent|
      invariant 0 <= i <= |sent|
      invariant Replay(u, sent, now, emailOk) == Replay(row, sent[i..], now, emailOk)
    {
      assert sent[i..][0] == sent[i] && sent[i..][1..] == sent[i + 1..];
      var next := Setattr(row, sent[i], now, emailOk);
      if next.None? {
        return None;
      }
      row := next.value;
      i := i + 1;
    }
    return Some(row);
  }

  // ---------------------------------------------------------------------
  // Table constraints
  // ---------------------------------------------------------------------

  /** `a` and `b` break the unique constraint on e-mail or the one on the
      phone number. The e-mail column compares addresses under its
      collation, so two addresses clash when their keys `emailKey` agree. */
  predicate Collides(a: User, b: User, emailKey: string -> string)
  {
    emailKey(a.email) == emailKey(b.email) || a.phNumber == b.phNumber
  }

  /** The database accepts `row` beside the rows `others`. */
  predicate CommitAllowed(others: map<Uuid, User>, row: User, emailKey: string -> string)
  {
    forall k :: k in others ==> !Collides(row, others[k], emailKey)
  }

  /** An insert also needs an unused primary key. */
  predicate CanInsert(users: map<Uuid, User>, row: User, emailKey: string -> string)
  {
    row.userId !in users && CommitAllowed(users, row, emailKey)
  }

  /** A stored row holds the values the validators let through. */
  ghost predicate Stored(u: User, emailOk: string -> bool)
  {
    emailOk(u.email) && PhoneMin <= u.phNumber <= PhoneMax
  }

  /** The invariant of the table: rows are keyed by their id, hold valid
      values, and no two rows share an e-mail (under the collation) or a
      phone number. */
  ghost predicate Consistent(users: map<Uuid, User>, emailOk: string -> bool, emailKey: string -> string)
  {
    (forall k :: k in users ==> users[k].userId == k && Stored(users[k], emailOk)) &&
    (forall j, k :: j in users && k in users && j != k ==> !Collides(users[j], users[k], emailKey))
  }

  /** The composite constraint on (email, ph_number) is implied by the one on email. */
  lemma PairUnique(users: map<Uuid, User>, emailOk: string -> bool, emailKey: string -> string, j: Uuid, k: Uuid)
    requires Consistent(users, emailOk, emailKey)
    requires j in users && k in users && j != k
    ensures (emailKey(users[j].email), users[j].phNumber) != (emailKey(users[k].email), users[k].phNumber)
  {
  }

  /** A row the database accepts can be written without breaking the invariant. */
  lemma CommitKeepsConsistent(users: map<Uuid, User>, emailOk: string -> bool, emailKey: string -> string, row: User)
    requires Consistent(users - {row.userId}, emailOk, emailKey)
    requires Stored(row, emailOk)
    requires CommitAllowed(users - {row.userId}, row, emailKey)
    ensures Consistent(users[row.userId := row], emailOk, emailKey)
  {
    var others := users - {row.userId};
    var next := users[row.userId := row];
    forall k | k in next
      ensures next[k].userId == k && Stored(next[k], emailOk)
    {
      if k != row.userId {
        assert k in others && next[k] == others[k];
      }
    }
    forall j, k | j in next && k in next && j != k
      ensures !Collides(next[j], next[k], emailKey)
    {
      if j == row.userId {
        assert k in others && next[k] == others[k];
        assert !Collides(row, others[k], emailKey);
      } else if k == row.userId {
        assert j in others && next[j] == others[j];
        assert !Collides(row, others[j], emailKey);
      } else {
        assert j in others && k in others;
        assert next[j] == others[j] && next[k] == others[k];
      }
    }
  }

  /** Removing a row keeps the invariant. */
  lemma RemoveKeepsConsistent(users: map<Uuid, User>, emailOk: string -> bool, emailKey: string -> string, key: Uuid)
    requires Consistent(users, emailOk, emailKey)
    ensures Consistent(users - {key}, emailOk, emailKey)
  {
  }

  /** A stored row never collides with the other stored rows, so the
      database accepts it unchanged. */
  lemma StoredRowCommits(users: map<Uuid, User>, emailOk: string -> bool, emailKey: string -> string, key: Uuid)
    requires Consistent(users, emailOk, emailKey) && key in users
    ensures CommitAllowed(users - {key}, users[key], emailKey)
  {
  }

  /** The assignments the row class accepts keep the values valid. */
  lemma MergedStored(u: User, p: UserUpdate, now: Timestamp, emailOk: string -> bool)
    requires Stored(u, emailOk)
    requires Merged(u, p, now, emailOk).Some?
    ensures Stored(Merged(u, p, now, emailOk).value, emailOk)
  {
  }

  // ---------------------------------------------------------------------
  // The table and the request handlers
  // ---------------------------------------------------------------------

  class UserStore {
    /** The check of the e-mail validation library: address syntax and, by
        default, the domain's deliverability through DNS. Its answer for an
        address is taken as fixed over time. */
    const emailOk: string -> bool
    /** The collation of the e-mail column: two addresses are equal for the
        unique constraints exactly when their keys are equal. The server's
        default collation ignores case and accents; the folding itself is
        left abstract. */
    const emailKey: string -> string
    /** The `users` table, by primary key. */
    var users: map<Uuid, User>

    ghost predicate Valid()
      reads this
    {
      Consistent(users, emailOk, emailKey)
    }

    constructor (emailOk: string -> bool, emailKey: string -> string)
      ensures Valid() && this.emailOk == emailOk && this.emailKey == emailKey && users == map[]
    {
      this.emailOk := emailOk;
      this.emailKey := emailKey;
      users := map[];
    }

    /** POST /users/: validate the body, add a row with the fresh id and the
        current time, commit; a commit the database refuses (a taken id,
        e-mail or phone number) is rolled back and the table is as before. */
    method CreateUser(user: UserCreate, freshId: Uuid, now: Timestamp) returns (r: Outcome<User>)
      requires Valid()
      modifies this
      ensures Valid()
      ensures r.Ok? || r.ValidationFailed? || r.DbError?
      ensures r.ValidationFailed? <==> ValidateUserCreate(user, emailOk).Rejected?
      ensures r.ValidationFailed? ==> r.errors == ValidateUserCreate(user, emailOk).errors
      ensures r.DbError? <==>
        ValidateUserCreate(user, emailOk).Accepted? && !CanInsert(old(users), NewUser(freshId, user, now), emailKey)
      ensures !r.Ok? ==> users == old(users)
      ensures r.Ok? ==>
        freshId !in old(users) && r.value == NewUser(freshId, user, now) &&
        users == old(users)[freshId := r.value]
    {
      var checked := ValidateUserCreate(user, emailOk);
      if checked.Rejected? {
        return ValidationFailed(checked.errors);
      }
      var row := NewUser(freshId, checked.value, now);
      var snapshot := users;
      users := users[freshId := row];
      if !CanInsert(snapshot, row, emailKey) {
        users := snapshot;
        return DbError;
      }
      assert snapshot - {freshId} == snapshot;
      CommitKeepsConsistent(snapshot, emailOk, emailKey, row);
      r := Ok(row);
    }

    /** GET /users/: one page of the table, listed in the database's order. */
    method ReadUsers(order: seq<Uuid>, offset: int, limit: int) returns (r: Outcome<seq<User>>)
      requires IsEnumeration(order, users.Keys)
      ensures r == Page(RowsInOrder(users, order), offset, limit)
      ensures r.Ok? <==> 0 <= offset && 0 <= limit <= MaxLimit
      ensures r.Ok? ==> |r.value| <= limit
      ensures r.Ok? ==> forall i :: 0 <= i < |r.value| ==> r.value[i] in users.Values
    {
      var rows := RowsInOrder(users, order);
      r := Page(rows, offset, limit);
      PageOfTable(users, order, offset, limit);
    }

    /** GET /users/{id}: the stored row, or NotFound. */
    method ReadUser(userId: Uuid) returns (r: Outcome<User>)
      ensures userId in users <==> r.Ok?
      ensures userId in users ==> r.value == users[userId]
      ensures userId !in users ==> r == NotFound
    {
      if userId !in users {
        return NotFound;
      }
      r := Ok(users[userId]);
    }

    /** PATCH /users/{id}: validate the sent fields, fetch the row, assign
        the sent fields, commit. A refused assignment (an explicit null)
        raises before the commit and is not caught; a refused commit is
        rolled back. */
    method UpdateUser(userId: Uuid, patch: UserUpdate, now: Timestamp) returns (r: Outcome<User>)
      requires Valid()
      modifies this
      ensures Valid()
      ensures r.Ok? || r.ValidationFailed? || r.NotFound? || r.ServerError? || r.DbError?
      ensures r.ValidationFailed? <==> ValidateUserUpdate(patch, emailOk).Rejected?
      ensures r.ValidationFailed? ==> r.errors == ValidateUserUpdate(patch, emailOk).errors
      ensures r.NotFound? <==> ValidateUserUpdate(patch, emailOk).Accepted? && userId !in old(users)
      ensures r.ServerError? <==>
        ValidateUserUpdate(patch, emailOk).Accepted? && userId in old(users) && SendsNull(patch)
      ensures r.DbError? <==>
        ValidateUserUpdate(patch, emailOk).Accepted? && userId in old(users) &&
        Merged(old(users)[userId], patch, now, emailOk).Some? &&
        !CommitAllowed(old(users) - {userId}, Merged(old(users)[userId], patch, now, emailOk).value, emailKey)
      ensures !r.Ok? ==> users == old(users)
      ensures r.Ok? ==>
        userId in old(users) && Merged(old(users)[userId], patch, now, emailOk) == Some(r.value) &&
        users == old(users)[userId := r.value]
      ensures r.Ok? ==> r.value.userId == userId && r.value.createdAt == old(users)[userId].createdAt
    {
      var checked := ValidateUserUpdate(patch, emailOk);
      if checked.Rejected? {
        return ValidationFailed(checked.errors);
      }
      if userId !in users {
        return NotFound;
      }
      ValidatedPatchAssignable(patch, emailOk);
      var userDb := users[userId];
      var merged := ApplyUpdate(userDb, checked.value, now, emailOk);
      if merged.None? {
        return ServerError;
      }
      if !CommitAllowed(users - {userId}, merged.value, emailKey) {
        return DbError;
      }
      MergedStored(userDb, patch, now, emailOk);
      RemoveKeepsConsistent(users, emailOk, emailKey, userId);
      CommitKeepsConsistent(users, emailOk, emailKey, merged.value);
      users := users[userId := merged.value];
      r := Ok(merged.value);
    }

    /** DELETE /users/{id}: remove exactly that row, or NotFound. */
    method DeleteUser(userId: Uuid) returns (r: Outcome<bool>)
      requires Valid()
      modifies this
      ensures Valid()
      ensures userId !in old(users) ==> r == NotFound && users == old(users)
      ensures userId in old(users) ==> r == Ok(true) && users == old(users) - {userId}
    {
      if userId !in users {
        return NotFound;
      }
      RemoveKeepsConsistent(users, emailOk, emailKey, userId);
      users := users - {userId};
      r := Ok(true);
    }
  }

  /** An empty patch on an existing row changes nothing and is committed. */
  method EmptyPatchKeepsUser(store: UserStore, userId: Uuid, now: Timestamp) returns (r: Outcome<User>)
    requires store.Valid() && userId in store.users
    modifies store
    ensures r == Ok(old(store.users)[userId]) && store.users == old(store.users)
  {
    StoredRowCommits(store.users, store.emailOk, store.emailKey, userId);
    r := store.UpdateUser(userId, EmptyUpdate, now);
  }

  /** A patch that sends an explicit null fails and leaves the table as it
      was, whatever the other fields say. */
  method NullPatchRefused(store: UserStore, userId: Uuid, patch: UserUpdate, now: Timestamp) returns (r: Outcome<User>)
    requires store.Valid() && userId in store.users
    requires SendsNull(patch) && ValidateUserUpdate(patch, store.emailOk).Accepted?
    modifies store
    ensures r == ServerError && store.users == old(store.users)
  {
    r := store.UpdateUser(userId, patch, now);
  }

  /** A second user whose e-mail address equals a stored one under the
      column's collation (for instance, differs only in case) is refused,
      and the table is as before. */
  method DuplicateEmailRefused(store: UserStore, user: UserCreate, freshId: Uuid, now: Timestamp, other: Uuid)
    returns (r: Outcome<User>)
    requires store.Valid()
    requires other in store.users && store.emailKey(store.users[other].email) == store.emailKey(user.email)
    modifies store
    ensures !r.Ok? && store.users == old(store.users)
  {
    r := store.CreateUser(user, freshId, now);
  }
}
