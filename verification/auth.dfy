/**
 * The password gate (`cmd_start`, `process_password`, the guard at the top
 * of `handle_all_messages`, `add_allowed_user`): an allow-list of user ids
 * kept as a JSON list, and a per-conversation state that is either idle or
 * waiting for the password.
 */
module Auth {
  import opened Wrappers
  import opened Strings
  import opened Telegram

  /** The conversation's FSM state. */
  datatype Conversation = Idle | WaitingPassword

  /** `message.from_user.id if message.from_user else None`. */
  function SenderId(m: Message): Option<int> {
    match m.fromUser
    case Some(u) => Some(u.id)
    case None => None
  }

  /** Python's `if uid:`: present and non-zero. */
  predicate Truthy(uid: Option<int>) {
    uid.Some? && uid.value != 0
  }

  predicate NoDuplicates(xs: seq<int>) {
    forall i, j :: 0 <= i < j < |xs| ==> xs[i] != xs[j]
  }

  /** `list(set(xs))`, keeping first occurrences in order (Python leaves the
      order unspecified). */
  function Dedup(xs: seq<int>): (r: seq<int>)
    ensures NoDuplicates(r)
    ensures forall x :: x in r <==> x in xs
    decreases |xs|
  {
    if xs == [] then []
    else
      var r := Dedup(xs[..|xs| - 1]);
      var x := xs[|xs| - 1];
      assert forall y :: y in xs <==> y in xs[..|xs| - 1] || y == x;
      if x in r then r else r + [x]
  }

  /** `add_allowed_user(uid)`: the stored list becomes the set of the old
      ids plus `uid`, written back as a list. */
  function AddAllowedUser(allowed: seq<int>, uid: int): (r: seq<int>)
    ensures NoDuplicates(r)
    ensures uid in r
    ensures forall x :: x in allowed ==> x in r
    ensures forall x :: x in r ==> x in allowed || x == uid
  {
    Dedup(allowed + [uid])
  }

  /** Adding a user who is already allowed does not change who is allowed. */
  lemma AddAllowedUserIdempotent(allowed: seq<int>, uid: int)
    requires uid in allowed
    ensures forall x :: x in AddAllowedUser(allowed, uid) <==> x in allowed
  {
  }

  /** The guard of `handle_all_messages`: the sender is known, non-zero and
      on the list. */
  predicate Admitted(allowed: seq<int>, m: Message) {
    var uid := SenderId(m);
    Truthy(uid) && uid.value in allowed
  }

  /** The replies the gate can give. */
  datatype GateReply = AlreadyAuthorised | AskPassword | PasswordAccepted | WrongPassword

  /** `cmd_start`: a listed sender is told so and keeps its state; anyone
      else is asked for the password and made to wait for it. */
  function Start(allowed: seq<int>, c: Conversation, m: Message): (r: (Conversation, GateReply))
    ensures r.1 == AlreadyAuthorised <==> SenderId(m).Some? && SenderId(m).value in allowed
    ensures r.1 == AlreadyAuthorised ==> r.0 == c
    ensures r.1 != AlreadyAuthorised ==> r == (WaitingPassword, AskPassword)
  {
    if m.fromUser.Some? && m.fromUser.value.id in allowed then (c, AlreadyAuthorised)
    else (WaitingPassword, AskPassword)
  }

  /** `process_password`: the stripped text must equal the configured
      password and the sender must be known; then the sender is added and
      the wait ends. Otherwise nothing changes. */
  function Password(allowed: seq<int>, m: Message, password: string): (r: (seq<int>, Conversation, GateReply))
    ensures r.2 == PasswordAccepted <==> Strip(Or(m.text, "")) == password && Truthy(SenderId(m))
    ensures r.2 == PasswordAccepted ==>
      && r.1 == Idle
      && Admitted(r.0, m)
      && (forall x :: x in r.0 <==> x in allowed || x == SenderId(m).value)
    ensures r.2 != PasswordAccepted ==> r == (allowed, WaitingPassword, WrongPassword)
  {
    var text := Strip(Or(m.text, ""));
    var uid := SenderId(m);
    if text == password && Truthy(uid) then (AddAllowedUser(allowed, uid.value), Idle, PasswordAccepted)
    else (allowed, WaitingPassword, WrongPassword)
  }

  /** Whitespace around the password is ignored. */
  lemma PaddedPasswordAccepted(allowed: seq<int>, m: Message, password: string, before: string, after: string)
    requires Trimmed(password) && IsBlank(before) && IsBlank(after)
    requires m.text == Some(before + password + after) && Truthy(SenderId(m))
    ensures Password(allowed, m, password).2 == PasswordAccepted
  {
    var t := before + password + after;
    assert Or(m.text, "") == t;
    StripMargins(before, password, after);
    assert Strip(Or(m.text, "")) == password;
  }
}
