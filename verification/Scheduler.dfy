/**
 * The scheduler with the bookkeeping the program keeps: running accounts per class and
 * per principal, an order array beside the principal map, two cursors and the table of
 * messages in flight. Every method is tied to SchedulerModel, whose totals are sums.
 */
module Scheduler {
  import opened Options
  import opened Admission
  import opened SchedulerModel
  import opened Verdicts
  import RoundRobin

  // One entry of the principal map. The map is kept as its entries in insertion order.
  datatype AuthorityQueue<+T> = AuthorityQueue(principal: string, accounting: Account, messages: seq<Message<T>>)

  datatype Work<+T> = Work(completionToken: CompletionToken, message: Message<T>)

  datatype Completion = Completed | NotInFlight | PrincipalNotAdmitted

  function Reserve(account: Account, byteLength: int): Account {
    Account(account.bytes + byteLength, account.messages + 1)
  }

  function Release(account: Account, byteLength: int): Account {
    Account(account.bytes - byteLength, account.messages - 1)
  }

  function EntryIndex<T>(entries: seq<AuthorityQueue<T>>, p: string, from: nat := 0): (i: nat)
    requires from <= |entries|
    ensures from <= i <= |entries|
    ensures i < |entries| ==> entries[i].principal == p
    ensures forall j :: from <= j < i ==> entries[j].principal != p
    decreases |entries| - from
  {
    if from == |entries| || entries[from].principal == p then from else EntryIndex(entries, p, from + 1)
  }

  function IndexOf(names: seq<string>, p: string, from: nat := 0): (i: nat)
    requires from <= |names|
    ensures from <= i <= |names|
    ensures i < |names| ==> names[i] == p
    ensures forall j :: from <= j < i ==> names[j] != p
    decreases |names| - from
  {
    if from == |names| || names[from] == p then from else IndexOf(names, p, from + 1)
  }

  ghost function Queues<T>(entries: seq<AuthorityQueue<T>>): (queues: seq<PrincipalQueue<T>>)
    ensures |queues| == |entries|
    ensures forall i :: 0 <= i < |entries| ==>
              queues[i] == PrincipalQueue(entries[i].principal, entries[i].messages)
  {
    seq(|entries|, i requires 0 <= i < |entries| => PrincipalQueue(entries[i].principal, entries[i].messages))
  }

  lemma EntryIndexIs<T>(entries: seq<AuthorityQueue<T>>, p: string)
    ensures EntryIndex(entries, p) == PrincipalIndex(Queues(entries), p)
  {
  }

  // The four class accounts.
  datatype Books = Books(safety: Account, authority: Account, liveness: Account, diagnostic: Account) {
    function Of(c: MessageClass): Account {
      match c
      case Safety => safety
      case Authority => authority
      case Liveness => liveness
      case Diagnostic => diagnostic
    }

    // The books once a message's share is released.
    function Less<T>(m: Message<T>): Books {
      match m.messageClass
      case Safety => this.(safety := Release(safety, m.byteLength))
      case Authority => this.(authority := Release(authority, m.byteLength))
      case Liveness => this.(liveness := Release(liveness, m.byteLength))
      case Diagnostic => this.(diagnostic := Release(diagnostic, m.byteLength))
    }
  }

  ghost predicate EntryBalanced<T>(s: State<T>, entry: AuthorityQueue<T>) {
    entry.accounting == HeldBy(s, entry.principal)
  }

  // Every account is the sum it stands for.
  ghost predicate Balanced<T>(s: State<T>, books: Books, entries: seq<AuthorityQueue<T>>) {
    && (forall c :: books.Of(c) == Held(s, c))
    && (forall i :: 0 <= i < |entries| ==> EntryBalanced(s, entries[i]))
  }

  // What setting an admitted authority message does to the principal map.
  ghost function InsertEntry<T>(entries: seq<AuthorityQueue<T>>, m: Message<T>): (r: seq<AuthorityQueue<T>>)
    ensures Queues(r) == InsertForPrincipal(Queues(entries), m)
  {
    EntryIndexIs(entries, PrincipalOf(m));
    var i := EntryIndex(entries, PrincipalOf(m));
    var r := if i < |entries| then entries[i := WithMessage(entries[i], m)]
             else entries + [WithMessage(AuthorityQueue(PrincipalOf(m), Account(0, 0), []), m)];
    assert |Queues(r)| == |InsertForPrincipal(Queues(entries), m)|;
    assert forall k :: 0 <= k < |r| ==> Queues(r)[k] == InsertForPrincipal(Queues(entries), m)[k];
    r
  }

  lemma {:induction false} InsertEntryOrder<T>(entries: seq<AuthorityQueue<T>>, m: Message<T>)
    ensures Principals(Queues(InsertEntry(entries, m)))
         == Principals(Queues(entries)) + if EntryIndex(entries, PrincipalOf(m)) < |entries| then [] else [PrincipalOf(m)]
  {
    var p, names := PrincipalOf(m), Principals(Queues(entries));
    var after := Principals(Queues(InsertEntry(entries, m)));
    EntryIndexIs(entries, p);
    InsertKeepsPrincipals(Queues(entries), m);
    assert after[..|names|] == names;
    if EntryIndex(entries, p) < |entries| {
      assert after == names == names + [];
    } else {
      assert after == names + [p];
    }
  }

  // Taking the first message of an entry; its accounting still counts it, in flight.
  function ShiftEntry<T>(entries: seq<AuthorityQueue<T>>, i: nat): (r: seq<AuthorityQueue<T>>)
    requires i < |entries| && entries[i].messages != []
  {
    entries[i := entries[i].(messages := entries[i].messages[1..])]
  }

  lemma ShiftEntryTakes<T>(s: State<T>, entries: seq<AuthorityQueue<T>>)
    requires CursorsInRange(s) && Queues(entries) == s.authority && Flatten(s.authority) != []
    ensures Queues(ShiftEntry(entries, NextPrincipal(s))) == Take(s, Authority).authority
  {
  }

  function WithMessage<T>(entry: AuthorityQueue<T>, m: Message<T>): AuthorityQueue<T> {
    entry.(accounting := Reserve(entry.accounting, m.byteLength), messages := entry.messages + [m])
  }

  lemma InsertEntryBalanced<T>(s: State<T>, entries: seq<AuthorityQueue<T>>, m: Message<T>, i: nat)
    requires Inv(s) && Queues(entries) == s.authority && m.messageClass.Authority?
    requires forall k :: 0 <= k < |entries| ==> EntryBalanced(s, entries[k])
    requires i < |InsertEntry(entries, m)|
    ensures EntryBalanced(Insert(s, m), InsertEntry(entries, m)[i])
  {
    var p := InsertEntry(entries, m)[i].principal;
    EntryIndexIs(entries, PrincipalOf(m));
    InsertHeldBy(s, m, p);
    if i < |entries| {
      QueueAt(s.authority, i);
      assert EntryBalanced(s, entries[i]);
    } else {
      AbsentHoldsNothing(s, p);
    }
  }

  // The class accounts after accepting a message: its own shifts, the others stay.
  ghost predicate Posted<T>(s: State<T>, m: Message<T>, books: Books, books': Books) {
    forall c ::
      if c == m.messageClass
      then books'.Of(c).Adds(books.Of(c), m.byteLength - PriorBytes(PriorFor(s, m)), 1 - PriorCount(PriorFor(s, m)))
      else books'.Of(c) == books.Of(c)
  }

  // An accepted message shifts its class's account and its principal's, and no other.
  lemma InsertBalanced<T>(s: State<T>, m: Message<T>, books: Books, entries: seq<AuthorityQueue<T>>,
                          books': Books, entries': seq<AuthorityQueue<T>>)
    requires Inv(s) && Balanced(s, books, entries) && Queues(entries) == s.authority
    requires Posted(s, m, books, books')
    requires entries' == if m.messageClass.Authority? then InsertEntry(entries, m) else entries
    ensures Balanced(Insert(s, m), books', entries')
  {
    forall c ensures books'.Of(c) == Held(Insert(s, m), c) {
      InsertHeld(s, m, c);
      assert books.Of(c) == Held(s, c);
    }
    forall i | 0 <= i < |entries'| ensures EntryBalanced(Insert(s, m), entries'[i]) {
      if m.messageClass.Authority? {
        InsertEntryBalanced(s, entries, m, i);
      } else {
        assert EntryBalanced(s, entries[i]);
        InsertHeldBy(s, m, entries[i].principal);
      }
    }
  }

  // What completing a delivery does to the principal map.
  ghost function CompleteEntry<T>(entries: seq<AuthorityQueue<T>>, m: Message<T>): seq<AuthorityQueue<T>> {
    var i := EntryIndex(entries, PrincipalOf(m));
    if !m.messageClass.Authority? || i == |entries| then entries
    else
      var queue := entries[i].(accounting := Release(entries[i].accounting, m.byteLength));
      if queue.accounting.messages == 0 then Without(entries, i) else entries[i := queue]
  }

  lemma {:induction false} CompleteEntryQueues<T>(s: State<T>, token: CompletionToken, entries: seq<AuthorityQueue<T>>)
    requires Inv(s) && IsLive(s, token) && Queues(entries) == s.authority
    requires forall k :: 0 <= k < |entries| ==> EntryBalanced(s, entries[k])
    ensures Queues(CompleteEntry(entries, MessageFor(s, token))) == Complete(s, token).authority
    ensures MessageFor(s, token).messageClass.Authority? ==> EntryIndex(entries, PrincipalOf(MessageFor(s, token))) < |entries|
  {
    var m := MessageFor(s, token);
    if m.messageClass.Authority? {
      var p := PrincipalOf(m);
      EntryIndexIs(entries, p);
      assert FlightListed(s, TokenIndex(s.inFlight, token));
      var i := EntryIndex(entries, p);
      assert EntryBalanced(s, entries[i]);
      SelectRemove(s.inFlight, TokenIndex(s.inFlight, token), OfPrincipal(p));
      QueuesWithout(entries, i);
      var queue := entries[i].(accounting := Release(entries[i].accounting, m.byteLength));
      assert Queues(entries[i := queue]) == Queues(entries);
    }
  }

  lemma QueuesWithout<T>(entries: seq<AuthorityQueue<T>>, i: nat)
    requires i < |entries|
    ensures Queues(Without(entries, i)) == Without(Queues(entries), i)
    ensures Principals(Queues(Without(entries, i))) == Without(Principals(Queues(entries)), i)
  {
    WithoutAt(entries, i);
    WithoutAt(Queues(entries), i);
    WithoutAt(Principals(Queues(entries)), i);
  }

  lemma CompleteEntryBalanced<T>(s: State<T>, token: CompletionToken, entries: seq<AuthorityQueue<T>>, k: nat)
    requires Inv(s) && IsLive(s, token) && Queues(entries) == s.authority
    requires forall i :: 0 <= i < |entries| ==> EntryBalanced(s, entries[i])
    requires k < |CompleteEntry(entries, MessageFor(s, token))|
    ensures EntryBalanced(Complete(s, token), CompleteEntry(entries, MessageFor(s, token))[k])
  {
    var m := MessageFor(s, token);
    var entries' := CompleteEntry(entries, m);
    var i := EntryIndex(entries, PrincipalOf(m));
    EntryIndexIs(entries, PrincipalOf(m));
    if i < |entries| {
      WithoutAt(entries, i);
    }
    var k' := if |entries'| == |entries| || k < i then k else k + 1;
    assert EntryBalanced(s, entries[k']) && entries'[k].principal == entries[k'].principal;
    QueueAt(s.authority, k');
    CompleteHeldBy(s, token, entries[k'].principal);
  }

  lemma CompleteKeeps<T>(s: State<T>, token: CompletionToken, books: Books, entries: seq<AuthorityQueue<T>>)
    requires Inv(s) && IsLive(s, token) && Queues(entries) == s.authority && Balanced(s, books, entries)
    ensures var entries' := CompleteEntry(entries, MessageFor(s, token));
            && Inv(Complete(s, token))
            && Balanced(Complete(s, token), books.Less(MessageFor(s, token)), entries')
            && Complete(s, token) == s.(
                 inFlight := Without(s.inFlight, TokenIndex(s.inFlight, token)),
                 authority := Queues(entries'),
                 principalCursor := if |entries'| == |entries| then s.principalCursor else Clamp(s.principalCursor, |entries'|))
    ensures MessageFor(s, token).messageClass.Authority? ==> EntryIndex(entries, PrincipalOf(MessageFor(s, token))) < |entries|
    ensures DistinctPrincipals(Queues(entries))
  {
    CompleteInv(s, token);
    CompleteEntryQueues(s, token, entries);
    CompleteBalanced(s, token, books, entries);
  }

  lemma CompleteBalanced<T>(s: State<T>, token: CompletionToken, books: Books, entries: seq<AuthorityQueue<T>>)
    requires Inv(s) && IsLive(s, token) && Queues(entries) == s.authority && Balanced(s, books, entries)
    ensures Balanced(Complete(s, token), books.Less(MessageFor(s, token)), CompleteEntry(entries, MessageFor(s, token)))
  {
    forall c ensures books.Less(MessageFor(s, token)).Of(c) == Held(Complete(s, token), c) {
      CompleteHeld(s, token, c);
    }
    forall k | 0 <= k < |CompleteEntry(entries, MessageFor(s, token))|
      ensures EntryBalanced(Complete(s, token), CompleteEntry(entries, MessageFor(s, token))[k])
    {
      CompleteEntryBalanced(s, token, entries, k);
    }
  }

  // What is left of a name list when names that are no longer keys are struck out.
  ghost function KeptNames<T>(names: seq<string>, entries: seq<AuthorityQueue<T>>): seq<string> {
    if names == [] then []
    else if EntryIndex(entries, names[0]) == |entries| then KeptNames(names[1..], entries)
    else [names[0]] + KeptNames(names[1..], entries)
  }

  lemma {:induction false} KeptNamesAreDrained<T>(queues: seq<PrincipalQueue<T>>, inFlight: seq<InFlight<T>>, entries: seq<AuthorityQueue<T>>)
    requires forall j :: 0 <= j < |queues| ==>
               (EntryIndex(entries, queues[j].principal) < |entries| <==> Select(inFlight, OfPrincipal(queues[j].principal)) != [])
    ensures KeptNames(Principals(queues), entries) == Principals(Drained(queues, inFlight))
  {
    if queues != [] {
      var rest := queues[1..];
      forall j | 0 <= j < |rest|
        ensures EntryIndex(entries, rest[j].principal) < |entries| <==> Select(inFlight, OfPrincipal(rest[j].principal)) != []
      {
        assert rest[j] == queues[j + 1];
      }
      KeptNamesAreDrained(rest, inFlight, entries);
      assert Principals(queues)[1..] == Principals(rest);
      var kept := Drained(rest, inFlight);
      if Select(inFlight, OfPrincipal(queues[0].principal)) != [] {
        assert Principals([PrincipalQueue(queues[0].principal, [])] + kept) == [queues[0].principal] + Principals(kept);
      }
    }
  }

  // The keys of the drained map are exactly the principals with work in flight.
  lemma DrainedKeys<T>(queues: seq<PrincipalQueue<T>>, inFlight: seq<InFlight<T>>, entries: seq<AuthorityQueue<T>>)
    requires DistinctPrincipals(queues) && Queues(entries) == Drained(queues, inFlight)
    ensures KeptNames(Principals(queues), entries) == Principals(Queues(entries))
  {
    DrainedDistinct(queues, inFlight);
    DrainedIsEmpty(queues, inFlight);
    forall j | 0 <= j < |queues|
      ensures EntryIndex(entries, queues[j].principal) < |entries| <==> Select(inFlight, OfPrincipal(queues[j].principal)) != []
    {
      EntryIndexIs(entries, queues[j].principal);
    }
    KeptNamesAreDrained(queues, inFlight, entries);
  }

  // An entry after its queue was released still counts what is in flight.
  ghost predicate CountsFlight<T>(entry: AuthorityQueue<T>, inFlight: seq<InFlight<T>>) {
    entry.messages == [] && entry.accounting == AccountOf(Select(inFlight, OfPrincipal(entry.principal)))
  }

  // The books when only what is in flight is counted.
  ghost function FlightBooks<T>(s: State<T>): Books {
    Books(AccountOf(Select(s.inFlight, OfClass(Safety))), AccountOf(Select(s.inFlight, OfClass(Authority))),
          AccountOf(Select(s.inFlight, OfClass(Liveness))), AccountOf(Select(s.inFlight, OfClass(Diagnostic))))
  }

  // Books that count the queues on top of what is in flight.
  ghost predicate CountsQueues<T>(s: State<T>, books: Books) {
    && books.safety.Adds(FlightBooks(s).safety, Bytes(s.safety), |s.safety|)
    && books.authority.Adds(FlightBooks(s).authority, Bytes(Flatten(s.authority)), |Flatten(s.authority)|)
    && books.liveness.Adds(FlightBooks(s).liveness, Bytes(s.liveness), |s.liveness|)
    && books.diagnostic.Adds(FlightBooks(s).diagnostic, Bytes(s.diagnostic), |s.diagnostic|)
  }

  // Releasing every queue leaves the books that count only what is in flight.
  lemma BooksEmptied<T>(s: State<T>, before: Books, after: Books)
    requires CountsQueues(s, before)
    requires before.safety.Adds(after.safety, Bytes(s.safety), |s.safety|)
    requires before.authority.Adds(after.authority, Bytes(Flatten(s.authority)), |Flatten(s.authority)|)
    requires before.liveness.Adds(after.liveness, Bytes(s.liveness), |s.liveness|)
    requires before.diagnostic.Adds(after.diagnostic, Bytes(s.diagnostic), |s.diagnostic|)
    ensures after == FlightBooks(s)
  {
  }

  lemma CancelKeeps<T>(s: State<T>, books: Books)
    requires Inv(s) && forall c :: books.Of(c) == Held(s, c)
    ensures Inv(CancelQueued(s)) && CountsQueues(s, books)
  {
    CancelInv(s);
    assert books.Of(Safety) == Held(s, Safety) && books.Of(Authority) == Held(s, Authority);
    assert books.Of(Liveness) == Held(s, Liveness) && books.Of(Diagnostic) == Held(s, Diagnostic);
  }

  lemma CancelBalanced<T>(s: State<T>, books: Books, entries: seq<AuthorityQueue<T>>)
    requires books == FlightBooks(s)
    requires forall i :: 0 <= i < |entries| ==> CountsFlight(entries[i], s.inFlight)
    ensures Balanced(CancelQueued(s), books, entries)
  {
    forall c ensures books.Of(c) == Held(CancelQueued(s), c) {
      CancelHeld(s, c, "");
    }
    forall i | 0 <= i < |entries| ensures EntryBalanced(CancelQueued(s), entries[i]) {
      assert CountsFlight(entries[i], s.inFlight);
      CancelHeld(s, Safety, entries[i].principal);
    }
  }

  // The first principal met from the cursor on that has something queued is served.
  lemma NextPrincipalIs<T>(s: State<T>, offset: nat)
    requires CursorsInRange(s) && offset < |s.authority|
    requires s.authority[RoundRobin.Slot(s.principalCursor, offset, |s.authority|)].queued != []
    requires forall k :: 0 <= k < offset ==> !AuthorityBacklog(s)[RoundRobin.Slot(s.principalCursor, k, |s.authority|)]
    ensures Flatten(s.authority) != []
    ensures NextPrincipal(s) == RoundRobin.Slot(s.principalCursor, offset, |s.authority|)
  {
    FlattenBacklog(s);
    RoundRobin.ScanIs(AuthorityBacklog(s), s.principalCursor, offset);
  }

  // The same for the service cycle.
  lemma NextSlotIs<T>(s: State<T>, allowed: Option<seq<MessageClass>>, offset: nat)
    requires CursorsInRange(s) && offset < 15
    requires Ready(s, allowed, SERVICE_CYCLE[RoundRobin.Slot(s.serviceCursor, offset, 15)])
    requires forall k :: 0 <= k < offset ==> !ServiceBacklog(s, allowed)[RoundRobin.Slot(s.serviceCursor, k, 15)]
    ensures NextSlot(s, allowed) == Some(RoundRobin.Slot(s.serviceCursor, offset, 15))
  {
    RoundRobin.ScanIs(ServiceBacklog(s, allowed), s.serviceCursor, offset);
  }

  lemma NoSlot<T>(s: State<T>, allowed: Option<seq<MessageClass>>)
    requires CursorsInRange(s)
    requires forall k :: 0 <= k < 15 ==> !ServiceBacklog(s, allowed)[RoundRobin.Slot(s.serviceCursor, k, 15)]
    ensures NextSlot(s, allowed).None?
    ensures forall c :: !Ready(s, allowed, c)
  {
    var backlog := ServiceBacklog(s, allowed);
    assert |backlog| == 15;
    forall k | 0 <= k < |backlog| ensures !backlog[RoundRobin.Slot(s.serviceCursor, k, |backlog|)] {
      assert !ServiceBacklog(s, allowed)[RoundRobin.Slot(s.serviceCursor, k, 15)];
    }
    RoundRobin.NothingScanned(backlog, s.serviceCursor);
    forall c ensures !Ready(s, allowed, c) {
      assert !backlog[FirstSlot(c)];
    }
  }

  // Delivery leaves every account as it is.
  lemma DequeueBalanced<T>(s: State<T>, allowed: Option<seq<MessageClass>>, token: CompletionToken,
                           books: Books, entries: seq<AuthorityQueue<T>>)
    requires WellFormed(s) && Balanced(s, books, entries)
    ensures Balanced(Dequeue(s, allowed, token), books, entries)
  {
    forall c ensures books.Of(c) == Held(Dequeue(s, allowed, token), c) {
      DequeueHeld(s, allowed, token, c);
    }
    forall i | 0 <= i < |entries| ensures EntryBalanced(Dequeue(s, allowed, token), entries[i]) {
      assert EntryBalanced(s, entries[i]);
      DequeueHeldBy(s, allowed, token, entries[i].principal);
    }
  }

  lemma LaunchKeeps<T>(s: State<T>, allowed: Option<seq<MessageClass>>, token: CompletionToken,
                       books: Books, entries: seq<AuthorityQueue<T>>)
    requires Inv(s) && Balanced(s, books, entries) && !IsLive(s, token) && NextSlot(s, allowed).Some?
    ensures var c := SERVICE_CYCLE[NextSlot(s, allowed).value];
            var after := Dequeue(s, allowed, token);
            && after == Take(s, c).(inFlight := s.inFlight + [InFlight(token, HeadOf(s, c))],
                                    serviceCursor := (NextSlot(s, allowed).value + 1) % 15)
            && Take(s, c).inFlight == s.inFlight
            && Inv(after) && Balanced(after, books, entries)
  {
    DequeueInv(s, allowed, token);
    DequeueBalanced(s, allowed, token, books, entries);
  }

  // Only the accounting of an entry matters to its balance, not what is still queued there.
  lemma ShiftBalanced<T>(s: State<T>, books: Books, entries: seq<AuthorityQueue<T>>, i: nat)
    requires Balanced(s, books, entries) && i < |entries| && entries[i].messages != []
    ensures Balanced(s, books, ShiftEntry(entries, i))
  {
    forall k | 0 <= k < |entries| ensures EntryBalanced(s, ShiftEntry(entries, i)[k]) {
      assert EntryBalanced(s, entries[k]);
    }
  }

  lemma AllScanned<T>(s: State<T>)
    requires CursorsInRange(s)
    requires forall k :: 0 <= k < |s.authority| ==> !AuthorityBacklog(s)[RoundRobin.Slot(s.principalCursor, k, |s.authority|)]
    ensures Flatten(s.authority) == []
  {
    FlattenBacklog(s);
    if s.authority != [] {
      RoundRobin.NothingScanned(AuthorityBacklog(s), s.principalCursor);
    }
  }

  lemma FlattenNext<T>(queues: seq<PrincipalQueue<T>>, i: nat)
    requires i < |queues|
    ensures queues[..i + 1] == queues[..i] + [queues[i]]
    ensures Flatten(queues[..i + 1]) == Flatten(queues[..i]) + queues[i].queued
  {
    assert queues[..i + 1] == queues[..i] + [queues[i]];
    FlattenConcat(queues[..i], [queues[i]]);
    assert Flatten([queues[i]]) == queues[i].queued;
  }

  // Releases every message of a list from an account.
  method ReleaseAll<T>(account: Account, messages: seq<Message<T>>) returns (released: Account)
    ensures account.Adds(released, Bytes(messages), |messages|)
  {
    released := account;
    for i := 0 to |messages|
      invariant account.Adds(released, Bytes(messages[..i]), i)
    {
      released := Release(released, messages[i].byteLength);
      AccountAppend(messages[..i], messages[i]);
      assert messages[..i + 1] == messages[..i] + [messages[i]];
    }
    assert messages[..|messages|] == messages;
  }

  class AdmissionScheduler<T> {
    var safety: seq<Message<T>>
    var safetyAccounting: Account
    var authorityByPrincipal: seq<AuthorityQueue<T>>
    var authorityPrincipalOrder: seq<string>
    var authorityAccounting: Account
    var livenessByKey: seq<Message<T>>
    var livenessAccounting: Account
    var diagnosticByKey: seq<Message<T>>
    var diagnosticAccounting: Account
    var inFlightMessages: seq<InFlight<T>>
    var serviceCursor: nat
    var authorityPrincipalCursor: nat

    // What the scheduler holds, without its bookkeeping.
    ghost function Abs(): State<T>
      reads this
    {
      State(safety, Queues(authorityByPrincipal), authorityPrincipalCursor, livenessByKey, diagnosticByKey,
            inFlightMessages, serviceCursor)
    }

    function Accounts(): Books
      reads this
    {
      Books(safetyAccounting, authorityAccounting, livenessAccounting, diagnosticAccounting)
    }

    // The order array lists the keys of the principal map, in the map's own order.
    ghost predicate Ordered()
      reads this
    {
      authorityPrincipalOrder == Principals(Queues(authorityByPrincipal))
    }

    ghost predicate Valid()
      reads this
    {
      Inv(Abs()) && Balanced(Abs(), Accounts(), authorityByPrincipal) && Ordered()
    }

    constructor ()
      ensures Valid()
      ensures IsEmpty(Abs())
    {
      safety, livenessByKey, diagnosticByKey, inFlightMessages := [], [], [], [];
      authorityByPrincipal, authorityPrincipalOrder := [], [];
      safetyAccounting, authorityAccounting := Account(0, 0), Account(0, 0);
      livenessAccounting, diagnosticAccounting := Account(0, 0), Account(0, 0);
      serviceCursor, authorityPrincipalCursor := 0, 0;
      new;
      EmptyInv(Abs());
    }

    method Enqueue(message: Message<T>) returns (result: AdmissionResult<T>)
      requires Valid()
      modifies this
      ensures Valid()
      ensures result == Decide(old(Abs()), message) && IsVerdict(old(Abs()), message, result)
      ensures Abs() == SchedulerModel.Enqueue(old(Abs()), message)
    {
      ghost var s := Abs();
      result := Queue(message);
      DecideIsVerdict(s, message);
    }

    // Checks the message and queues it with its class.
    method Queue(message: Message<T>) returns (result: AdmissionResult<T>)
      requires Valid()
      modifies this
      ensures Valid()
      ensures result == Decide(old(Abs()), message)
      ensures Abs() == SchedulerModel.Enqueue(old(Abs()), message)
    {
      var invalid := Validate(message);
      if invalid.Some? {
        return Fence(invalid.value);
      }
      ghost var before, books, entries := Abs(), Accounts(), authorityByPrincipal;
      match message.messageClass {
        case Safety => result := EnqueueSafety(message);
        case Authority => result := EnqueueAuthority(message);
        case _ => result := EnqueueCoalesced(message);
      }
      if result.Accepts() {
        EnqueueInv(before, message);
        InsertBalanced(before, message, books, entries, Accounts(), authorityByPrincipal);
        assert Inv(Abs()) && Balanced(Abs(), Accounts(), authorityByPrincipal);
      }
    }

    method EnqueueSafety(message: Message<T>) returns (result: AdmissionResult<T>)
      requires Valid() && Validate(message).None? && message.messageClass.Safety?
      modifies `safety, `safetyAccounting
      ensures result == Decide(old(Abs()), message)
      ensures !result.Accepts() ==> unchanged(this)
      ensures result.Accepts() ==>
                && Abs() == Insert(old(Abs()), message)
                && Posted(old(Abs()), message, old(Accounts()), Accounts())
    {
      assert Accounts().Of(Safety) == Held(Abs(), Safety);
      if !CanReserve(safetyAccounting, message.byteLength, SAFETY_LIMITS) {
        return Fence(SafetyCapacity);
      }
      safety := safety + [message];
      safetyAccounting := Reserve(safetyAccounting, message.byteLength);
      result := Admitted;
    }

    method EnqueueAuthority(message: Message<T>) returns (result: AdmissionResult<T>)
      requires Valid() && Validate(message).None? && message.messageClass.Authority?
      modifies `authorityByPrincipal, `authorityPrincipalOrder, `authorityAccounting
      ensures result == Decide(old(Abs()), message)
      ensures !result.Accepts() ==> unchanged(this)
      ensures result.Accepts() ==>
                && Abs() == Insert(old(Abs()), message)
                && Posted(old(Abs()), message, old(Accounts()), Accounts())
                && authorityByPrincipal == InsertEntry(old(authorityByPrincipal), message)
                && Ordered()
    {
      var principal := PrincipalOf(message);
      var i, queue := EntryFor(principal);
      if !CanReserve(queue.accounting, message.byteLength, PRINCIPAL_LIMITS) {
        return Refused(PrincipalCapacity);
      }
      assert Accounts().Of(Authority) == Held(Abs(), Authority);
      if !CanReserve(authorityAccounting, message.byteLength, AUTHORITY_LIMITS) {
        return Fence(AuthorityCapacity);
      }
      InsertEntryOrder(authorityByPrincipal, message);
      PostAuthority(i, queue, message);
      result := Admitted;
    }

    // Puts a message at the end of its principal's queue; a new principal comes last in the order.
    method PostAuthority(i: nat, queue: AuthorityQueue<T>, message: Message<T>)
      requires i == EntryIndex(authorityByPrincipal, PrincipalOf(message))
      requires queue == if i < |authorityByPrincipal| then authorityByPrincipal[i] else AuthorityQueue(PrincipalOf(message), Account(0, 0), [])
      modifies `authorityByPrincipal, `authorityPrincipalOrder, `authorityAccounting
      ensures authorityByPrincipal == InsertEntry(old(authorityByPrincipal), message)
      ensures authorityPrincipalOrder
           == old(authorityPrincipalOrder) + if i < |old(authorityByPrincipal)| then [] else [PrincipalOf(message)]
      ensures authorityAccounting == Reserve(old(authorityAccounting), message.byteLength)
    {
      if i == |authorityByPrincipal| {
        authorityByPrincipal := authorityByPrincipal + [queue];
        authorityPrincipalOrder := authorityPrincipalOrder + [PrincipalOf(message)];
      }
      authorityByPrincipal := authorityByPrincipal[i := WithMessage(queue, message)];
      authorityAccounting := Reserve(authorityAccounting, message.byteLength);
      assert authorityByPrincipal == InsertEntry(old(authorityByPrincipal), message);
    }

    // The entry of a principal, or the empty one it would get, and its place in the map.
    method EntryFor(principal: string) returns (i: nat, queue: AuthorityQueue<T>)
      requires Valid()
      ensures i == EntryIndex(authorityByPrincipal, principal)
      ensures queue == if i < |authorityByPrincipal| then authorityByPrincipal[i] else AuthorityQueue(principal, Account(0, 0), [])
      ensures queue.accounting == HeldBy(Abs(), principal)
    {
      i := EntryIndex(authorityByPrincipal, principal);
      EntryIndexIs(authorityByPrincipal, principal);
      if i < |authorityByPrincipal| {
        queue := authorityByPrincipal[i];
        assert EntryBalanced(Abs(), queue);
      } else {
        queue := AuthorityQueue(principal, Account(0, 0), []);
        AbsentHoldsNothing(Abs(), principal);
      }
    }

    method EnqueueCoalesced(message: Message<T>) returns (result: AdmissionResult<T>)
      requires Valid() && Validate(message).None? && Coalesces(message.messageClass)
      modifies `livenessByKey, `livenessAccounting, `diagnosticByKey, `diagnosticAccounting
      ensures result == Decide(old(Abs()), message)
      ensures !result.Accepts() ==> unchanged(this)
      ensures result.Accepts() ==>
                && Abs() == Insert(old(Abs()), message)
                && Posted(old(Abs()), message, old(Accounts()), Accounts())
    {
      assert Accounts().Of(message.messageClass) == Held(Abs(), message.messageClass);
      var isLiveness := message.messageClass.Liveness?;
      var messages := if isLiveness then livenessByKey else diagnosticByKey;
      var accounting := if isLiveness then livenessAccounting else diagnosticAccounting;
      var limits := if isLiveness then LIVENESS_LIMITS else DIAGNOSTIC_LIMITS;
      var prior := PriorOf(messages, message.coalesceKey);
      var nextBytes := accounting.bytes - (if prior.Some? then prior.value.byteLength else 0) + message.byteLength;
      var nextMessages := accounting.messages + if prior.None? then 1 else 0;
      if nextBytes > limits.maxBytes || nextMessages > limits.maxMessages {
        return if isLiveness then Shed(LivenessCapacity) else Dropped(DiagnosticCapacity);
      }
      PutCoalesced(isLiveness, message, Account(nextBytes, nextMessages));
      result := if prior.None? then Admitted else Replaced(prior.value);
    }

    method PutCoalesced(isLiveness: bool, message: Message<T>, accounting: Account)
      modifies `livenessByKey, `livenessAccounting, `diagnosticByKey, `diagnosticAccounting
      ensures isLiveness ==>
                && livenessByKey == PutByKey(old(livenessByKey), message) && livenessAccounting == accounting
                && unchanged(`diagnosticByKey, `diagnosticAccounting)
      ensures !isLiveness ==>
                && diagnosticByKey == PutByKey(old(diagnosticByKey), message) && diagnosticAccounting == accounting
                && unchanged(`livenessByKey, `livenessAccounting)
    {
      if isLiveness {
        livenessByKey := PutByKey(livenessByKey, message);
        livenessAccounting := accounting;
      } else {
        diagnosticByKey := PutByKey(diagnosticByKey, message);
        diagnosticAccounting := accounting;
      }
    }

    /** Looks for the first principal with something queued, starting at the cursor. */
    method NextQueuedPrincipal() returns (r: Option<nat>)
      requires WellFormed(Abs()) && Ordered()
      ensures r.None? <==> Flatten(Abs().authority) == []
      ensures r.Some? ==> r.value == NextPrincipal(Abs())
    {
      ghost var s := Abs();
      var size := |authorityPrincipalOrder|;
      if size == 0 {
        return None;
      }
      for offset := 0 to size
        invariant forall k :: 0 <= k < offset ==> !AuthorityBacklog(s)[RoundRobin.Slot(s.principalCursor, k, size)]
      {
        var index := (authorityPrincipalCursor + offset) % size;
        assert index == RoundRobin.Slot(s.principalCursor, offset, size);
        var principal := authorityPrincipalOrder[index];
        EntryIndexIs(authorityByPrincipal, principal);
        QueueAt(s.authority, index);
        var i := EntryIndex(authorityByPrincipal, principal);
        if i < |authorityByPrincipal| && authorityByPrincipal[i].messages != [] {
          NextPrincipalIs(s, offset);
          return Some(index);
        }
      }
      AllScanned(s);
      return None;
    }

    method DequeueAuthority() returns (r: Option<Message<T>>)
      requires Valid()
      modifies `authorityByPrincipal, `authorityPrincipalCursor
      ensures r.None? <==> old(Queued(Abs(), Authority)) == []
      ensures r.None? ==> unchanged(this)
      ensures r.Some? ==>
                && r.value == old(HeadOf(Abs(), Authority))
                && Abs() == Take(old(Abs()), Authority)
                && Balanced(old(Abs()), Accounts(), authorityByPrincipal) && Ordered()
    {
      var found := NextQueuedPrincipal();
      if found.None? {
        return None;
      }
      var index := found.value;
      ShiftEntryTakes(Abs(), authorityByPrincipal);
      ShiftBalanced(Abs(), Accounts(), authorityByPrincipal, index);
      r := Some(authorityByPrincipal[index].messages[0]);
      ShiftAuthority(index);
    }

    method ShiftAuthority(index: nat)
      requires index < |authorityByPrincipal| == |authorityPrincipalOrder| && authorityByPrincipal[index].messages != []
      modifies `authorityByPrincipal, `authorityPrincipalCursor
      ensures authorityByPrincipal == ShiftEntry(old(authorityByPrincipal), index)
      ensures authorityPrincipalCursor == RoundRobin.Slot(index, 1, |authorityPrincipalOrder|)
    {
      authorityByPrincipal := ShiftEntry(authorityByPrincipal, index);
      authorityPrincipalCursor := (index + 1) % |authorityPrincipalOrder|;
      assert authorityPrincipalCursor == RoundRobin.Slot(index, 1, |authorityPrincipalOrder|);
    }

    method DequeueClass(c: MessageClass) returns (r: Option<Message<T>>)
      requires Valid()
      modifies `safety, `authorityByPrincipal, `authorityPrincipalCursor, `livenessByKey, `diagnosticByKey
      ensures r.None? <==> old(Queued(Abs(), c)) == []
      ensures r.None? ==> unchanged(this)
      ensures r.Some? ==>
                && r.value == old(HeadOf(Abs(), c))
                && Abs() == Take(old(Abs()), c)
                && Balanced(old(Abs()), Accounts(), authorityByPrincipal) && Ordered()
    {
      match c {
        case Authority => r := DequeueAuthority();
        case Safety =>
          if safety == [] { return None; }
          r, safety := Some(safety[0]), safety[1..];
        case Liveness =>
          if livenessByKey == [] { return None; }
          r, livenessByKey := Some(livenessByKey[0]), livenessByKey[1..];
        case Diagnostic =>
          if diagnosticByKey == [] { return None; }
          r, diagnosticByKey := Some(diagnosticByKey[0]), diagnosticByKey[1..];
      }
    }

    // Moves the cursor behind the slot served and puts the message in flight under its token.
    method Launch(ghost s: State<T>, ghost allowed: Option<seq<MessageClass>>, index: nat, message: Message<T>,
                  completionToken: CompletionToken)
      requires Inv(s) && NextSlot(s, allowed) == Some(index) && !IsLive(s, completionToken)
      requires Abs() == Take(s, SERVICE_CYCLE[index]) && message == HeadOf(s, SERVICE_CYCLE[index])
      requires Balanced(s, Accounts(), authorityByPrincipal) && Ordered()
      modifies `serviceCursor, `inFlightMessages
      ensures Valid()
      ensures Abs() == SchedulerModel.Dequeue(s, allowed, completionToken)
    {
      LaunchKeeps(s, allowed, completionToken, Accounts(), authorityByPrincipal);
      TakeOff((index + 1) % 15, InFlight(completionToken, message));
      assert Abs() == SchedulerModel.Dequeue(s, allowed, completionToken);
    }

    method TakeOff(cursor: nat, flight: InFlight<T>)
      modifies `serviceCursor, `inFlightMessages
      ensures serviceCursor == cursor && inFlightMessages == old(inFlightMessages) + [flight]
    {
      serviceCursor := cursor;
      inFlightMessages := inFlightMessages + [flight];
    }

    /** Serves the first slot of the service cycle, from the cursor on, whose class is allowed and has work. */
    method Dequeue(allowed: Option<seq<MessageClass>>) returns (work: Option<Work<T>>)
      requires Valid()
      modifies this
      ensures Valid()
      ensures work.None? <==> forall c :: !Ready(old(Abs()), allowed, c)
      ensures work.None? ==> unchanged(this)
      ensures work.Some? ==>
                && fresh(work.value.completionToken)
                && Delivery(old(Abs()), allowed) == Some(work.value.message)
                && Abs() == SchedulerModel.Dequeue(old(Abs()), allowed, work.value.completionToken)
    {
      ghost var s := Abs();
      for offset := 0 to 15
        invariant unchanged(this)
        invariant forall k :: 0 <= k < offset ==> !ServiceBacklog(s, allowed)[RoundRobin.Slot(s.serviceCursor, k, 15)]
      {
        var index := (serviceCursor + offset) % 15;
        assert index == RoundRobin.Slot(s.serviceCursor, offset, 15);
        var messageClass := SERVICE_CYCLE[index];
        if !Allows(allowed, messageClass) {
          continue;
        }
        var message := DequeueClass(messageClass);
        if message.Some? {
          NextSlotIs(s, allowed, offset);
          var completionToken := new CompletionToken();
          Launch(s, allowed, index, message.value, completionToken);
          return Some(Work(completionToken, message.value));
        }
      }
      NoSlot(s, allowed);
      return None;
    }

    /**
     * Releases the capacity of one delivery. A principal in flight is always listed, so the
     * branch that finds no entry for it is never taken.
     */
    method Complete(token: CompletionToken) returns (r: Completion)
      requires Valid()
      modifies this
      ensures Valid()
      ensures r == if old(IsLive(Abs(), token)) then Completed else NotInFlight
      ensures Abs() == SchedulerModel.Complete(old(Abs()), token)
    {
      var i := TokenIndex(inFlightMessages, token);
      if i == |inFlightMessages| {
        return NotInFlight;
      }
      r := CompleteAt(token, i);
    }

    method CompleteAt(ghost token: CompletionToken, i: nat) returns (r: Completion)
      requires Valid() && i == TokenIndex(inFlightMessages, token) && i < |inFlightMessages|
      modifies this
      ensures Valid() && r == Completed
      ensures Abs() == SchedulerModel.Complete(old(Abs()), token)
    {
      ghost var s := Abs();
      var message := inFlightMessages[i].message;
      CompleteKeeps(s, token, Accounts(), authorityByPrincipal);
      inFlightMessages := Without(inFlightMessages, i);
      r := ReleaseShare(message);
      assert Abs() == SchedulerModel.Complete(s, token);
      assert Inv(Abs());
    }

    // Takes the share of a completed message out of the accounts that count it.
    method ReleaseShare(message: Message<T>) returns (r: Completion)
      requires Ordered() && DistinctPrincipals(Queues(authorityByPrincipal))
      modifies `safetyAccounting, `livenessAccounting, `diagnosticAccounting
      modifies `authorityByPrincipal, `authorityAccounting, `authorityPrincipalOrder, `authorityPrincipalCursor
      ensures r == if message.messageClass.Authority? &&
                      old(EntryIndex(authorityByPrincipal, PrincipalOf(message)) == |authorityByPrincipal|)
                   then PrincipalNotAdmitted else Completed
      ensures r.PrincipalNotAdmitted? ==> unchanged(this)
      ensures r.Completed? ==> Accounts() == old(Accounts()).Less(message)
      ensures Ordered()
      ensures authorityByPrincipal == CompleteEntry(old(authorityByPrincipal), message)
      ensures authorityPrincipalCursor == if |authorityByPrincipal| == old(|authorityByPrincipal|) then old(authorityPrincipalCursor)
                                          else Clamp(old(authorityPrincipalCursor), |authorityByPrincipal|)
    {
      r := Completed;
      match message.messageClass {
        case Safety => safetyAccounting := Release(safetyAccounting, message.byteLength);
        case Liveness => livenessAccounting := Release(livenessAccounting, message.byteLength);
        case Diagnostic => diagnosticAccounting := Release(diagnosticAccounting, message.byteLength);
        case Authority => r := CompleteAuthority(message);
      }
    }

    method CompleteAuthority(message: Message<T>) returns (r: Completion)
      requires Ordered() && DistinctPrincipals(Queues(authorityByPrincipal)) && message.messageClass.Authority?
      modifies `authorityByPrincipal, `authorityAccounting, `authorityPrincipalOrder, `authorityPrincipalCursor
      ensures r == if old(EntryIndex(authorityByPrincipal, PrincipalOf(message)) < |authorityByPrincipal|)
                   then Completed else PrincipalNotAdmitted
      ensures r.PrincipalNotAdmitted? ==> unchanged(this)
      ensures Ordered()
      ensures authorityByPrincipal == CompleteEntry(old(authorityByPrincipal), message)
      ensures r.Completed? ==> authorityAccounting == Release(old(authorityAccounting), message.byteLength)
      ensures authorityPrincipalCursor == if |authorityByPrincipal| == old(|authorityByPrincipal|) then old(authorityPrincipalCursor)
                                          else Clamp(old(authorityPrincipalCursor), |authorityByPrincipal|)
    {
      var principal := PrincipalOf(message);
      var i := EntryIndex(authorityByPrincipal, principal);
      if i == |authorityByPrincipal| {
        return PrincipalNotAdmitted;
      }
      EntryIndexIs(authorityByPrincipal, principal);
      var queue := authorityByPrincipal[i].(accounting := Release(authorityByPrincipal[i].accounting, message.byteLength));
      authorityAccounting := Release(authorityAccounting, message.byteLength);
      assert Queues(authorityByPrincipal[i := queue]) == Queues(authorityByPrincipal);
      QueuesWithout(authorityByPrincipal, i);
      if queue.accounting.messages == 0 {
        authorityByPrincipal := Without(authorityByPrincipal, i);
        var index := IndexOf(authorityPrincipalOrder, principal);
        if index < |authorityPrincipalOrder| {
          assert index == i;
          authorityPrincipalOrder := Without(authorityPrincipalOrder, index);
          authorityPrincipalCursor := Clamp(authorityPrincipalCursor, |authorityPrincipalOrder|);
        }
      } else {
        authorityByPrincipal := authorityByPrincipal[i := queue];
      }
      r := Completed;
    }

    /** Empties every queue; what is in flight keeps its capacity and its principals. */
    method CancelQueued() returns (cancelled: seq<Message<T>>)
      requires Valid()
      modifies this
      ensures Valid()
      ensures cancelled == AllQueued(old(Abs()))
           == old(safety) + Flatten(old(Abs()).authority) + old(livenessByKey) + old(diagnosticByKey)
      ensures Abs() == SchedulerModel.CancelQueued(old(Abs()))
    {
      ghost var s := Abs();
      CancelKeeps(s, Accounts());
      cancelled := ReleaseQueues(s);
      CancelBalanced(s, Accounts(), authorityByPrincipal);
      assert Inv(Abs());
    }

    method ReleaseQueues(ghost s: State<T>) returns (cancelled: seq<Message<T>>)
      requires s == Abs() && DistinctPrincipals(s.authority) && Ordered()
      requires forall i :: 0 <= i < |authorityByPrincipal| ==> EntryBalanced(s, authorityByPrincipal[i])
      requires CountsQueues(s, Accounts())
      modifies this
      ensures cancelled == AllQueued(s)
      ensures Abs() == SchedulerModel.CancelQueued(s) && Ordered()
      ensures Accounts() == FlightBooks(s)
      ensures forall i :: 0 <= i < |authorityByPrincipal| ==> CountsFlight(authorityByPrincipal[i], s.inFlight)
    {
      cancelled := CancelOrdered(s);
      var lively, diagnostics := CancelCoalesced();
      cancelled := cancelled + lively + diagnostics;
      BooksEmptied(s, old(Accounts()), Accounts());
    }

    method CancelOrdered(ghost s: State<T>) returns (cancelled: seq<Message<T>>)
      requires DistinctPrincipals(s.authority) && s.authority == Queues(authorityByPrincipal) && s.inFlight == inFlightMessages
      requires forall i :: 0 <= i < |authorityByPrincipal| ==> EntryBalanced(s, authorityByPrincipal[i])
      requires Ordered()
      modifies `safety, `safetyAccounting
      modifies `authorityByPrincipal, `authorityAccounting, `authorityPrincipalOrder, `authorityPrincipalCursor
      ensures cancelled == old(safety) + Flatten(s.authority) && safety == []
      ensures old(safetyAccounting).Adds(safetyAccounting, Bytes(old(safety)), |old(safety)|)
      ensures old(authorityAccounting).Adds(authorityAccounting, Bytes(Flatten(s.authority)), |Flatten(s.authority)|)
      ensures Queues(authorityByPrincipal) == Drained(s.authority, s.inFlight) && Ordered()
      ensures forall i :: 0 <= i < |authorityByPrincipal| ==> CountsFlight(authorityByPrincipal[i], s.inFlight)
      ensures authorityPrincipalCursor == Clamp(old(authorityPrincipalCursor), |authorityByPrincipal|)
    {
      cancelled := CancelSafety();
      var drained := CancelAuthority(s);
      cancelled := cancelled + drained;
    }

    method CancelSafety() returns (cancelled: seq<Message<T>>)
      modifies `safety, `safetyAccounting
      ensures cancelled == old(safety) && safety == []
      ensures old(safetyAccounting).Adds(safetyAccounting, Bytes(cancelled), |cancelled|)
    {
      cancelled := safety;
      safetyAccounting := ReleaseAll(safetyAccounting, safety);
      safety := [];
    }

    method CancelCoalesced() returns (lively: seq<Message<T>>, diagnostics: seq<Message<T>>)
      modifies `livenessByKey, `livenessAccounting, `diagnosticByKey, `diagnosticAccounting
      ensures lively == old(livenessByKey) && diagnostics == old(diagnosticByKey)
      ensures livenessByKey == [] && diagnosticByKey == []
      ensures old(livenessAccounting).Adds(livenessAccounting, Bytes(lively), |lively|)
      ensures old(diagnosticAccounting).Adds(diagnosticAccounting, Bytes(diagnostics), |diagnostics|)
    {
      lively, diagnostics := livenessByKey, diagnosticByKey;
      livenessAccounting := ReleaseAll(livenessAccounting, livenessByKey);
      diagnosticAccounting := ReleaseAll(diagnosticAccounting, diagnosticByKey);
      livenessByKey, diagnosticByKey := [], [];
    }

    method CancelAuthority(ghost s: State<T>) returns (drained: seq<Message<T>>)
      requires DistinctPrincipals(s.authority) && s.authority == Queues(authorityByPrincipal) && s.inFlight == inFlightMessages
      requires forall i :: 0 <= i < |authorityByPrincipal| ==> EntryBalanced(s, authorityByPrincipal[i])
      requires Ordered()
      modifies `authorityByPrincipal, `authorityAccounting, `authorityPrincipalOrder, `authorityPrincipalCursor
      ensures drained == Flatten(s.authority)
      ensures old(authorityAccounting).Adds(authorityAccounting, Bytes(drained), |drained|)
      ensures Queues(authorityByPrincipal) == Drained(s.authority, s.inFlight) && Ordered()
      ensures forall i :: 0 <= i < |authorityByPrincipal| ==> CountsFlight(authorityByPrincipal[i], s.inFlight)
      ensures authorityPrincipalCursor == Clamp(old(authorityPrincipalCursor), |authorityByPrincipal|)
    {
      drained := DrainPrincipals(s);
      PruneOrder();
      DrainedKeys(s.authority, s.inFlight, authorityByPrincipal);
      authorityPrincipalCursor := Clamp(authorityPrincipalCursor, |authorityPrincipalOrder|);
    }

    // Releases what every principal has queued and forgets principals with nothing in flight.
    method DrainPrincipals(ghost s: State<T>) returns (drained: seq<Message<T>>)
      requires DistinctPrincipals(s.authority) && s.authority == Queues(authorityByPrincipal) && s.inFlight == inFlightMessages
      requires forall i :: 0 <= i < |authorityByPrincipal| ==> EntryBalanced(s, authorityByPrincipal[i])
      modifies `authorityByPrincipal, `authorityAccounting
      ensures drained == Flatten(s.authority)
      ensures old(authorityAccounting).Adds(authorityAccounting, Bytes(drained), |drained|)
      ensures Queues(authorityByPrincipal) == Drained(s.authority, s.inFlight)
      ensures forall i :: 0 <= i < |authorityByPrincipal| ==> CountsFlight(authorityByPrincipal[i], s.inFlight)
    {
      var kept: seq<AuthorityQueue<T>> := [];
      drained := [];
      for i := 0 to |authorityByPrincipal|
        invariant authorityByPrincipal == old(authorityByPrincipal)
        invariant drained == Flatten(s.authority[..i])
        invariant old(authorityAccounting).Adds(authorityAccounting, Bytes(drained), |drained|)
        invariant Queues(kept) == Drained(s.authority[..i], s.inFlight)
        invariant forall k :: 0 <= k < |kept| ==> CountsFlight(kept[k], s.inFlight)
      {
        var queue := authorityByPrincipal[i];
        FlattenNext(s.authority, i);
        DrainedAppend(s.authority[..i], s.authority[i], s.inFlight);
        BytesConcat(drained, queue.messages);
        assert EntryBalanced(s, queue);
        QueueAt(s.authority, i);
        var accounting := ReleaseAll(queue.accounting, queue.messages);
        authorityAccounting := ReleaseAll(authorityAccounting, queue.messages);
        drained := drained + queue.messages;
        if accounting.messages != 0 {
          kept := kept + [AuthorityQueue(queue.principal, accounting, [])];
        }
      }
      assert s.authority[..|s.authority|] == s.authority;
      authorityByPrincipal := kept;
    }

    // Strikes out, from the last to the first, the principals that are no longer keys of the map.
    method PruneOrder()
      modifies `authorityPrincipalOrder
      ensures authorityPrincipalOrder == KeptNames(old(authorityPrincipalOrder), authorityByPrincipal)
    {
      ghost var names := authorityPrincipalOrder;
      var i := |authorityPrincipalOrder|;
      while i > 0
        invariant 0 <= i <= |names| && i <= |authorityPrincipalOrder|
        invariant authorityPrincipalOrder[..i] == names[..i]
        invariant authorityPrincipalOrder[i..] == KeptNames(names[i..], authorityByPrincipal)
      {
        i := i - 1;
        assert authorityPrincipalOrder[i] == names[i];
        assert names[i..][0] == names[i] && names[i..][1..] == names[i + 1..];
        if EntryIndex(authorityByPrincipal, authorityPrincipalOrder[i]) == |authorityByPrincipal| {
          ghost var longer := authorityPrincipalOrder;
          authorityPrincipalOrder := Without(authorityPrincipalOrder, i);
          assert authorityPrincipalOrder[i..] == longer[i + 1..];
        } else {
          assert authorityPrincipalOrder[i..] == [names[i]] + authorityPrincipalOrder[i + 1..];
        }
      }
    }
  }
}
