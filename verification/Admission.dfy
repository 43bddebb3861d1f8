/** Messages, limits and verdicts of gateway-control admission, and sums over messages. */
module Admission {
  import opened Options

  datatype MessageClass = Safety | Authority | Liveness | Diagnostic

  datatype Message<+T> = Message(
    id: string,
    byteLength: int,
    messageClass: MessageClass,
    coalesceKey: Option<string>,
    stablePrincipal: Option<string>,
    zoneId: Option<string>,
    payload: T)

  datatype Reason =
    | AuthorityCapacity | DiagnosticCapacity | FrameTooLarge | GlobalCapacity
    | InvalidMessage | LivenessCapacity | PrincipalCapacity | SafetyCapacity

  datatype AdmissionResult<+T> =
    | Admitted
    | Replaced(replacedMessage: Message<T>)
    | Dropped(reason: Reason)
    | Shed(reason: Reason)
    | Refused(reason: Reason)
    | Fence(reason: Reason)
  {
    predicate Accepts() { Admitted? || Replaced? }
  }

  // What a queue holds: the bytes and the number of its messages.
  datatype Account = Account(bytes: int, messages: int) {
    predicate Within(limits: Limits) { bytes <= limits.maxBytes && messages <= limits.maxMessages }

    // This account is `before` with so many bytes and messages more.
    predicate Adds(before: Account, moreBytes: int, moreMessages: int) {
      bytes == before.bytes + moreBytes && messages == before.messages + moreMessages
    }

    predicate AddsMessage<T>(before: Account, m: Message<T>) { Adds(before, m.byteLength, 1) }
  }

  datatype Limits = Limits(maxBytes: int, maxMessages: int)

  const SAFETY_LIMITS := Limits(524_288, 32)
  const AUTHORITY_LIMITS := Limits(1_572_864, 96)
  const LIVENESS_LIMITS := Limits(1_048_576, 64)
  const DIAGNOSTIC_LIMITS := Limits(1_048_576, 64)
  const PRINCIPAL_LIMITS := Limits(131_072, 8)
  const MAX_FRAME_BYTES := 65_536
  const MAX_SAFE_INTEGER := 0x1F_FFFF_FFFF_FFFF

  function LimitsOf(c: MessageClass): Limits {
    match c
    case Safety => SAFETY_LIMITS
    case Authority => AUTHORITY_LIMITS
    case Liveness => LIVENESS_LIMITS
    case Diagnostic => DIAGNOSTIC_LIMITS
  }

  predicate Coalesces(c: MessageClass) { c.Liveness? || c.Diagnostic? }

  predicate CanReserve(account: Account, byteLength: int, limits: Limits) {
    account.bytes + byteLength <= limits.maxBytes && account.messages + 1 <= limits.maxMessages
  }

  predicate Present(s: Option<string>) { s.Some? && s.value != "" }

  // Why a message is fenced before any queue is looked at.
  function Validate<T>(m: Message<T>): Option<Reason> {
    if m.id == "" || m.byteLength > MAX_SAFE_INTEGER || m.byteLength <= 0 then Some(InvalidMessage)
    else if m.byteLength > MAX_FRAME_BYTES then Some(FrameTooLarge)
    else if m.messageClass.Authority? && !Present(m.stablePrincipal) then Some(InvalidMessage)
    else if Coalesces(m.messageClass) && !Present(m.coalesceKey) then Some(InvalidMessage)
    else None
  }

  predicate ValidIn<T>(c: MessageClass, m: Message<T>) {
    m.messageClass == c && Validate(m).None?
  }

  predicate AllValidIn<T>(c: MessageClass, ms: seq<Message<T>>) {
    forall i :: 0 <= i < |ms| ==> ValidIn(c, ms[i])
  }

  function Bytes<T>(ms: seq<Message<T>>): int {
    if ms == [] then 0 else ms[0].byteLength + Bytes(ms[1..])
  }

  function AccountOf<T>(ms: seq<Message<T>>): Account { Account(Bytes(ms), |ms|) }

  lemma {:induction false} BytesConcat<T>(a: seq<Message<T>>, b: seq<Message<T>>)
    ensures Bytes(a + b) == Bytes(a) + Bytes(b)
  {
    if a == [] {
      assert a + b == b;
    } else {
      BytesConcat(a[1..], b);
      assert (a + b)[1..] == a[1..] + b;
    }
  }

  // Taking a message out of a queue takes exactly its own share out of the account.
  lemma AccountRemove<T>(ms: seq<Message<T>>, i: nat)
    requires i < |ms|
    ensures AccountOf(ms).AddsMessage(AccountOf(ms[..i] + ms[i + 1..]), ms[i])
  {
    BytesConcat(ms[..i], ms[i..]);
    BytesConcat(ms[..i], ms[i + 1..]);
    assert ms == ms[..i] + ms[i..];
    assert ms[i..][1..] == ms[i + 1..];
  }

  lemma AccountAppend<T>(ms: seq<Message<T>>, m: Message<T>)
    ensures AccountOf(ms + [m]).AddsMessage(AccountOf(ms), m)
  {
    BytesConcat(ms, [m]);
    assert Bytes([m]) == m.byteLength + Bytes([m][1..]);
  }

  lemma AccountReplace<T>(ms: seq<Message<T>>, i: nat, m: Message<T>)
    requires i < |ms|
    ensures AccountOf(ms[i := m]).Adds(AccountOf(ms), m.byteLength - ms[i].byteLength, 0)
  {
    AccountRemove(ms, i);
    AccountRemove(ms[i := m], i);
    assert ms[i := m][..i] + ms[i := m][i + 1..] == ms[..i] + ms[i + 1..];
  }

  lemma {:induction false} BytesNonNegative<T>(ms: seq<Message<T>>)
    requires forall i :: 0 <= i < |ms| ==> ms[i].byteLength >= 0
    ensures Bytes(ms) >= 0
  {
    if ms != [] { BytesNonNegative(ms[1..]); }
  }

  // A JavaScript Map from coalesce key to message, kept as its values in insertion order.
  ghost predicate DistinctKeys<T>(ms: seq<Message<T>>) {
    forall i, j :: 0 <= i < j < |ms| ==> ms[i].coalesceKey != ms[j].coalesceKey
  }

  // The position of a key, or the length when the key is absent.
  function KeyIndex<T>(ms: seq<Message<T>>, key: Option<string>, from: nat := 0): (i: nat)
    requires from <= |ms|
    ensures from <= i <= |ms|
    ensures i < |ms| ==> ms[i].coalesceKey == key
    ensures forall j :: from <= j < i ==> ms[j].coalesceKey != key
    decreases |ms| - from
  {
    if from == |ms| || ms[from].coalesceKey == key then from else KeyIndex(ms, key, from + 1)
  }

  function PriorOf<T>(ms: seq<Message<T>>, key: Option<string>): Option<Message<T>> {
    var i := KeyIndex(ms, key);
    if i < |ms| then Some(ms[i]) else None
  }

  // What replacing `prior`, if there is one, gives back.
  function PriorBytes<T>(prior: Option<Message<T>>): int { if prior.Some? then prior.value.byteLength else 0 }
  function PriorCount<T>(prior: Option<Message<T>>): nat { if prior.Some? then 1 else 0 }

  // Map.set: a known key keeps its place, a new one goes last.
  function PutByKey<T>(ms: seq<Message<T>>, m: Message<T>): seq<Message<T>> {
    var i := KeyIndex(ms, m.coalesceKey);
    if i < |ms| then ms[i := m] else ms + [m]
  }
}
