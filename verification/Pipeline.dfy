/**
 * Requests in flight at once, told apart by a one-byte sequence number. Whatever the link loses, repeats or delays,
 * no request is lost or completed twice, and every wait for a completion ends.
 */
module Pipeline {
  import opened Common

  const SMP_HEADER_SIZE := 8

  type Tag = nat

  /** A request in flight. `id` says which submission it came from, as the identity of the object does. */
  datatype Request = Request(
    id: nat, tag: Tag, group: nat, command: byte, packet: Bytes, timeout: nat, resendsLeft: nat, deadline: nat)

  /** One item of the dictionary of requests in flight, which keeps the order of insertion. */
  datatype Entry = Entry(sequence: byte, request: Request)

  /** What was submitted. */
  datatype Ticket = Ticket(
    tag: Tag, group: nat, command: byte, sequence: byte, packet: Bytes, retries: nat, timeout: nat)

  /** The wait for a response was given up at some time. */
  datatype Outcome = Answered(packet: Bytes) | Refused(packet: Bytes) | TimedOut(at: nat)

  datatype Completion = Completion(id: nat, tag: Tag, outcome: Outcome)

  datatype Sent = Sent(id: nat, packet: Bytes, at: nat)

  /** The requests in flight, and everything that was submitted, sent and completed so far. */
  datatype State = State(pending: seq<Entry>, submitted: seq<Ticket>, sent: seq<Sent>, completed: seq<Completion>)

  /** What the body of a response says: a result, an error, or nothing that can be decoded. */
  datatype Verdict = Fine | Failed | Undecodable

  function EncodeRequest(op: byte, group: nat, command: byte, body: Bytes, sequence: byte): (packet: Bytes)
    requires op < 8 && group < 0x1_0000 && |body| < 0x1_0000
    ensures |packet| >= SMP_HEADER_SIZE && Header(packet) == (|body|, group, sequence, command)
    ensures packet[SMP_HEADER_SIZE..] == body
  {
    [op + 8, 0] + ToBe16(|body|) + ToBe16(group) + [sequence, command] + body
  }

  /** What the fixed fields at the start of a packet say, the operation and flags apart. */
  function Header(packet: Bytes): (nat, nat, byte, byte)
    requires |packet| >= SMP_HEADER_SIZE
  {
    (FromBe16(packet[2], packet[3]), FromBe16(packet[4], packet[5]), packet[6], packet[7])
  }

  predicate IsFree(pending: seq<Entry>, sequence: byte) {
    forall i :: 0 <= i < |pending| ==> pending[i].sequence != sequence
  }

  /** `sequence` is the first number after `last`, going round, that no request in flight has. */
  ghost predicate IsNextFree(pending: seq<Entry>, last: byte, sequence: byte) {
    && IsFree(pending, sequence)
    && exists c :: IsFirstFree(pending, last, sequence, c)
  }

  ghost predicate IsFirstFree(pending: seq<Entry>, last: byte, sequence: byte, c: nat) {
    && 0 < c <= 256 && sequence == After(last, c)
    && forall d :: 0 < d < c ==> IsTaken(pending, last, d)
  }

  /** The number that `d` calls for the next one come to. */
  ghost function After(last: byte, d: nat): byte { (last + d) % 256 }

  ghost predicate IsTaken(pending: seq<Entry>, last: byte, d: nat) { !IsFree(pending, After(last, d)) }

  // What the operations do.

  function Submitted(st: State, ticket: Ticket, now: nat): State {
    var id := |st.submitted|;
    var request := Request(id, ticket.tag, ticket.group, ticket.command, ticket.packet, ticket.timeout,
                           ticket.retries, now + ticket.timeout);
    st.(pending := st.pending + [Entry(ticket.sequence, request)],
        submitted := st.submitted + [ticket],
        sent := st.sent + [Sent(id, ticket.packet, now)])
  }

  /** The request at `i` ends. */
  function Ended(st: State, i: nat, outcome: Outcome): State
    requires i < |st.pending|
  {
    var request := st.pending[i].request;
    st.(pending := st.pending[..i] + st.pending[i + 1..],
        completed := st.completed + [Completion(request.id, request.tag, outcome)])
  }

  /** The request at `i` is sent again. */
  function Resent(st: State, i: nat, now: nat): State
    requires i < |st.pending| && st.pending[i].request.resendsLeft > 0
  {
    var entry := st.pending[i];
    var request :=
      entry.request.(resendsLeft := entry.request.resendsLeft - 1, deadline := now + entry.request.timeout);
    st.(pending := st.pending[i := entry.(request := request)],
        sent := st.sent + [Sent(request.id, request.packet, now)])
  }

  function Find(pending: seq<Entry>, sequence: byte): (found: Option<nat>)
    ensures found.Some? ==> found.value < |pending| && pending[found.value].sequence == sequence
    ensures found.None? <==> IsFree(pending, sequence)
  {
    if |pending| == 0 then None
    else if pending[|pending| - 1].sequence == sequence then Some(|pending| - 1)
    else Find(pending[..|pending| - 1], sequence)
  }

  /** The request in flight that a packet answers. */
  function Matched(pending: seq<Entry>, packet: Bytes): (found: Option<nat>)
    ensures found.Some? ==> found.value < |pending|
  {
    if |packet| < SMP_HEADER_SIZE then None
    else
      var (_, group, sequence, command) := Header(packet);
      var found := Find(pending, sequence);
      if found.Some? && (group, command) ==
         (pending[found.value].request.group, pending[found.value].request.command) then found
      else None
  }

  function Accepted(st: State, packet: Bytes, decode: Bytes -> Verdict): State {
    var found := Matched(st.pending, packet);
    if found.None? || decode(packet) == Undecodable then st
    else Ended(st, found.value, if decode(packet) == Fine then Answered(packet) else Refused(packet))
  }

  /** The requests from `i` on whose deadline passed are sent again, until one has been sent often enough. */
  function ExpiredFrom(st: State, i: nat, now: nat): State
    requires i <= |st.pending|
    decreases |st.pending| - i
  {
    if i == |st.pending| then st
    else if st.pending[i].request.deadline > now then ExpiredFrom(st, i + 1, now)
    else if st.pending[i].request.resendsLeft > 0 then ExpiredFrom(Resent(st, i, now), i + 1, now)
    else Ended(st, i, TimedOut(now))
  }

  lemma ExpiredAt(st: State, i: nat, now: nat)
    requires i <= |st.pending|
    ensures ExpiredFrom(st, i, now) ==
            if i == |st.pending| then st
            else if st.pending[i].request.deadline > now then ExpiredFrom(st, i + 1, now)
            else if st.pending[i].request.resendsLeft > 0 then ExpiredFrom(Resent(st, i, now), i + 1, now)
            else Ended(st, i, TimedOut(now))
  {
  }

  // What every run keeps.

  datatype Name = Name(id: nat, tag: Tag)

  ghost function TicketNames(s: seq<Ticket>): seq<Name> { seq(|s|, i requires 0 <= i < |s| => Name(i, s[i].tag)) }

  ghost function PendingNames(s: seq<Entry>): seq<Name> {
    seq(|s|, i requires 0 <= i < |s| => Name(s[i].request.id, s[i].request.tag))
  }

  ghost function CompletedNames(s: seq<Completion>): seq<Name> {
    seq(|s|, i requires 0 <= i < |s| => Name(s[i].id, s[i].tag))
  }

  ghost function SentIds(s: seq<Sent>): seq<nat> { seq(|s|, i requires 0 <= i < |s| => s[i].id) }

  /** How often a request was sent. */
  ghost function Sends(st: State, id: nat): nat { multiset(SentIds(st.sent))[id] }

  /** The requests in flight have distinct numbers. */
  ghost predicate Distinct(pending: seq<Entry>) {
    forall i, j :: 0 <= i < j < |pending| ==> pending[i].sequence != pending[j].sequence
  }

  /** Every submitted request is either completed or in flight, once. */
  ghost predicate Conserved(st: State) {
    multiset(TicketNames(st.submitted)) ==
    multiset(CompletedNames(st.completed)) + multiset(PendingNames(st.pending))
  }

  /**
   * A request in flight is as it was submitted, was sent `retries + 1 - resendsLeft` times, and keeps its number. It
   * is due when its timeout has passed since it was last sent.
   */
  ghost predicate Faithful(st: State, e: Entry) {
    && e.request.id < |st.submitted|
    && var ticket := st.submitted[e.request.id];
    && e.sequence == ticket.sequence && e.request.packet == ticket.packet && e.request.tag == ticket.tag
    && e.request.group == ticket.group && e.request.command == ticket.command
    && e.request.timeout == ticket.timeout
    && IsDue(st.sent, e.request.id, ticket.timeout, e.request.deadline)
    && Sends(st, e.request.id) + e.request.resendsLeft == ticket.retries + 1
    && forall j :: e.request.id < j < |st.submitted| ==> st.submitted[j].sequence != e.sequence
  }

  /** Every time a request was sent is at least its timeout before `deadline`, and the last one exactly that. */
  ghost predicate IsDue(sent: seq<Sent>, id: nat, timeout: nat, deadline: nat) {
    && HasWaited(sent, id, timeout, deadline)
    && exists i :: 0 <= i < |sent| && sent[i].id == id && sent[i].at + timeout == deadline
  }

  /** Whenever a request was sent, its timeout had passed by `now`. */
  ghost predicate HasWaited(sent: seq<Sent>, id: nat, timeout: nat, now: nat) {
    forall i :: 0 <= i < |sent| && sent[i].id == id ==> sent[i].at + timeout <= now
  }

  /** No request is sent again before its timeout has passed since it was sent. */
  ghost predicate Spaced(st: State) {
    forall i, j :: 0 <= i < j < |st.sent| && st.sent[i].id == st.sent[j].id && st.sent[i].id < |st.submitted| ==>
      st.sent[i].at + st.submitted[st.sent[i].id].timeout <= st.sent[j].at
  }

  /** What was sent for a request is its packet, at most `retries + 1` times. */
  ghost predicate WithinRetries(st: State) {
    && (forall i :: 0 <= i < |st.sent| ==>
        st.sent[i].id < |st.submitted| && st.sent[i].packet == st.submitted[st.sent[i].id].packet)
    && forall id :: 0 <= id < |st.submitted| ==> Sends(st, id) <= st.submitted[id].retries + 1
  }

  /**
   * A completion is its request's. A response carries the request's number, group and command; it is taken for a
   * result when its body says one, and for an error when its body says that. A timeout follows the last resend, and
   * the timeout has passed since then.
   */
  ghost predicate Earned(decode: Bytes -> Verdict, st: State, c: Completion) {
    && c.id < |st.submitted|
    && var ticket := st.submitted[c.id];
    && c.tag == ticket.tag
    && match c.outcome
       case TimedOut(at) => Sends(st, c.id) == ticket.retries + 1 && HasWaited(st.sent, c.id, ticket.timeout, at)
       case Answered(packet) => IsAnswer(ticket, packet) && decode(packet) == Fine
       case Refused(packet) => IsAnswer(ticket, packet) && decode(packet) == Failed
  }

  predicate IsAnswer(ticket: Ticket, packet: Bytes) {
    && |packet| >= SMP_HEADER_SIZE
    && var (_, group, sequence, command) := Header(packet);
    (group, sequence, command) == (ticket.group, ticket.sequence, ticket.command)
  }

  ghost predicate Sound(decode: Bytes -> Verdict, st: State) {
    && Distinct(st.pending)
    && Conserved(st)
    && (forall i :: 0 <= i < |st.pending| ==> Faithful(st, st.pending[i]))
    && WithinRetries(st)
    && Spaced(st)
    && (forall i :: 0 <= i < |st.completed| ==> Earned(decode, st, st.completed[i]))
  }

  lemma SentOnce(s: seq<Sent>, x: Sent)
    ensures SentIds(s + [x]) == SentIds(s) + [x.id]
    ensures multiset(SentIds(s + [x])) == multiset(SentIds(s)) + multiset{x.id}
  {
    assert SentIds(s + [x]) == SentIds(s) + [x.id];
  }

  lemma {:induction false} NotYetSent(st: State, id: nat)
    requires forall i :: 0 <= i < |st.sent| ==> st.sent[i].id < id
    ensures Sends(st, id) == 0
  {
    assert forall x :: x in SentIds(st.sent) ==> x < id;
  }

  lemma SubmittedConserves(st: State, ticket: Ticket, now: nat)
    requires Conserved(st)
    ensures Conserved(Submitted(st, ticket, now))
  {
    var next := Submitted(st, ticket, now);
    var name := Name(|st.submitted|, ticket.tag);
    assert TicketNames(next.submitted) == TicketNames(st.submitted) + [name];
    assert PendingNames(next.pending) == PendingNames(st.pending) + [name];
  }

  lemma SentLater(sent: seq<Sent>, x: Sent, id: nat, timeout: nat, t: nat)
    ensures x.id != id ==> HasWaited(sent + [x], id, timeout, t) == HasWaited(sent, id, timeout, t)
    ensures x.id != id && IsDue(sent, id, timeout, t) ==> IsDue(sent + [x], id, timeout, t)
    ensures x.id == id && HasWaited(sent, id, timeout, x.at) ==> IsDue(sent + [x], id, timeout, x.at + timeout)
  {
    var more := sent + [x];
    assert forall i :: 0 <= i < |sent| ==> more[i] == sent[i];
    assert more[|sent|] == x;
    if x.id != id && IsDue(sent, id, timeout, t) {
      var i :| 0 <= i < |sent| && sent[i].id == id && sent[i].at + timeout == t;
      assert more[i].at + timeout == t;
    }
  }

  lemma SpacedLater(st: State, next: State, x: Sent)
    requires Spaced(st) && next.sent == st.sent + [x]
    requires |st.submitted| <= |next.submitted| && next.submitted[..|st.submitted|] == st.submitted
    requires x.id < |next.submitted| && HasWaited(st.sent, x.id, next.submitted[x.id].timeout, x.at)
    requires forall i :: 0 <= i < |st.sent| ==> st.sent[i].id < |st.submitted|
    ensures Spaced(next)
  {
  }

  lemma SubmittedSends(st: State, ticket: Ticket, now: nat)
    requires WithinRetries(st)
    ensures var next := Submitted(st, ticket, now);
            && WithinRetries(next)
            && forall k :: 0 <= k < |next.submitted| ==>
                 Sends(next, k) == if k == |st.submitted| then 1 else Sends(st, k)
  {
    NotYetSent(st, |st.submitted|);
    SentOnce(st.sent, Sent(|st.submitted|, ticket.packet, now));
  }

  lemma SubmittedIsFaithful(st: State, ticket: Ticket, now: nat, e: Entry)
    requires Faithful(st, e) && e.sequence != ticket.sequence
    requires Sends(Submitted(st, ticket, now), e.request.id) == Sends(st, e.request.id)
    ensures Faithful(Submitted(st, ticket, now), e)
  {
    hide HasWaited, Sends, IsDue;
    var x := Sent(|st.submitted|, ticket.packet, now);
    SentLater(st.sent, x, e.request.id, e.request.timeout, e.request.deadline);
  }

  lemma NewIsFaithful(st: State, ticket: Ticket, now: nat)
    requires WithinRetries(st)
    ensures var next := Submitted(st, ticket, now); Faithful(next, next.pending[|st.pending|])
  {
    hide Sends, IsDue;
    var id := |st.submitted|;
    SubmittedSends(st, ticket, now);
    SentLater(st.sent, Sent(id, ticket.packet, now), id, ticket.timeout, now + ticket.timeout);
  }

  lemma SubmittedKeeps(decode: Bytes -> Verdict, st: State, ticket: Ticket, now: nat)
    requires Sound(decode, st) && IsFree(st.pending, ticket.sequence)
    ensures Sound(decode, Submitted(st, ticket, now))
  {
    hide Conserved, IsDue, HasWaited, Sends, Spaced, Faithful;
    var next := Submitted(st, ticket, now);
    var id := |st.submitted|;
    var x := Sent(id, ticket.packet, now);
    SubmittedConserves(st, ticket, now);
    SubmittedSends(st, ticket, now);
    NewHasNotWaited(st, id, ticket.timeout, now);
    SpacedLater(st, next, x);
    forall i | 0 <= i < |next.pending| ensures Faithful(next, next.pending[i]) {
      if i < |st.pending| {
        FaithfulIsSubmitted(st, st.pending[i]);
        SubmittedIsFaithful(st, ticket, now, st.pending[i]);
      } else {
        NewIsFaithful(st, ticket, now);
      }
    }
    forall i | 0 <= i < |next.completed| ensures Earned(decode, next, next.completed[i]) {
      EarnedLater(decode, st, next, x, st.completed[i]);
    }
  }

  lemma NewHasNotWaited(st: State, id: nat, timeout: nat, now: nat)
    requires forall i :: 0 <= i < |st.sent| ==> st.sent[i].id < id
    ensures HasWaited(st.sent, id, timeout, now)
  {
  }

  lemma FaithfulIsSubmitted(st: State, e: Entry)
    requires Faithful(st, e)
    ensures e.request.id < |st.submitted|
  {
  }

  /** What another request sends does not touch a completion. */
  lemma EarnedLater(decode: Bytes -> Verdict, st: State, next: State, x: Sent, c: Completion)
    requires Earned(decode, st, c)
    requires |st.submitted| <= |next.submitted| && next.submitted[..|st.submitted|] == st.submitted
    requires next.sent == st.sent + [x] && x.id != c.id
    ensures Earned(decode, next, c)
  {
    hide HasWaited, Header;
    SentOnce(st.sent, x);
    assert next.submitted[c.id] == st.submitted[c.id];
    if c.outcome.TimedOut? {
      SentLater(st.sent, x, c.id, st.submitted[c.id].timeout, c.outcome.at);
    }
  }

  /** Different requests in flight came from different submissions: the later one has another number. */
  lemma DistinctIds(decode: Bytes -> Verdict, st: State, i: nat, j: nat)
    requires Sound(decode, st) && i < j < |st.pending|
    ensures st.pending[i].request.id != st.pending[j].request.id
  {
    assert Faithful(st, st.pending[i]) && Faithful(st, st.pending[j]);
  }

  lemma ResentSends(st: State, i: nat, now: nat)
    requires WithinRetries(st) && i < |st.pending| && st.pending[i].request.resendsLeft > 0
    requires Faithful(st, st.pending[i])
    ensures var next := Resent(st, i, now);
            && WithinRetries(next)
            && forall k :: 0 <= k < |next.submitted| ==>
                 Sends(next, k) == Sends(st, k) + if k == st.pending[i].request.id then 1 else 0
  {
    hide IsDue;
    var request := st.pending[i].request;
    SentOnce(st.sent, Sent(request.id, request.packet, now));
  }

  lemma ResentIsFaithful(st: State, i: nat, now: nat, e: Entry)
    requires WithinRetries(st) && i < |st.pending| && st.pending[i].request.resendsLeft > 0
    requires Faithful(st, st.pending[i]) && st.pending[i].request.deadline <= now && Faithful(st, e)
    ensures var next := Resent(st, i, now);
            && Faithful(next, next.pending[i])
            && (e.request.id != st.pending[i].request.id ==> Faithful(next, e))
  {
    ResentSends(st, i, now);
    hide Sends;
    var request := st.pending[i].request;
    var x := Sent(request.id, request.packet, now);
    SentLater(st.sent, x, request.id, request.timeout, now);
    SentLater(st.sent, x, e.request.id, e.request.timeout, e.request.deadline);
  }

  lemma ResentIsSpaced(st: State, i: nat, now: nat)
    requires WithinRetries(st) && Spaced(st) && i < |st.pending| && st.pending[i].request.resendsLeft > 0
    requires Faithful(st, st.pending[i]) && st.pending[i].request.deadline <= now
    ensures Spaced(Resent(st, i, now))
  {
    hide Spaced, Sends;
    var request := st.pending[i].request;
    SpacedLater(st, Resent(st, i, now), Sent(request.id, request.packet, now));
  }

  lemma ResentKeeps(decode: Bytes -> Verdict, st: State, i: nat, now: nat)
    requires Sound(decode, st) && i < |st.pending| && st.pending[i].request.resendsLeft > 0
    requires st.pending[i].request.deadline <= now
    ensures Sound(decode, Resent(st, i, now))
  {
    hide Conserved, Spaced, Faithful, WithinRetries;
    var next := Resent(st, i, now);
    var e := st.pending[i];
    ResentSends(st, i, now);
    ResentIsSpaced(st, i, now);
    ResentConserves(st, i, now);
    forall k | 0 <= k < |next.pending| ensures Faithful(next, next.pending[k]) {
      ResentIsFaithful(st, i, now, st.pending[k]);
      if k < i {
        DistinctIds(decode, st, k, i);
      } else if k > i {
        DistinctIds(decode, st, i, k);
      }
    }
    forall k | 0 <= k < |next.completed| ensures Earned(decode, next, next.completed[k]) {
      CompletedIsNotPending(decode, st, k, i);
      EarnedLater(decode, st, next, Sent(e.request.id, e.request.packet, now), st.completed[k]);
    }
  }

  lemma ResentConserves(st: State, i: nat, now: nat)
    requires Conserved(st) && i < |st.pending| && st.pending[i].request.resendsLeft > 0
    ensures Conserved(Resent(st, i, now))
  {
    assert PendingNames(Resent(st, i, now).pending) == PendingNames(st.pending);
  }

  /** A name that is in two lists is in their sum twice; no name is submitted twice. */
  lemma CompletedIsNotPending(decode: Bytes -> Verdict, st: State, k: nat, i: nat)
    requires Sound(decode, st) && k < |st.completed| && i < |st.pending|
    ensures st.completed[k].id != st.pending[i].request.id
  {
    if st.completed[k].id == st.pending[i].request.id {
      var id := st.completed[k].id;
      var a := CompletedNames(st.completed);
      var b := PendingNames(st.pending);
      assert a[k] in multiset(a) + multiset(b) && b[i] in multiset(a) + multiset(b);
      assert a[k] in TicketNames(st.submitted) && b[i] in TicketNames(st.submitted);
      assert a[k] == b[i] == Name(id, st.submitted[id].tag);
      NamedOnce(st.submitted, id);
    }
  }

  lemma {:induction false} NamedOnce(s: seq<Ticket>, id: nat)
    requires id < |s|
    ensures multiset(TicketNames(s))[Name(id, s[id].tag)] == 1
  {
    var names := TicketNames(s);
    assert names == names[..id] + [names[id]] + names[id + 1..];
    assert Name(id, s[id].tag) !in names[..id] && Name(id, s[id].tag) !in names[id + 1..];
  }

  lemma EndedConserves(st: State, i: nat, outcome: Outcome)
    requires Conserved(st) && i < |st.pending|
    ensures Conserved(Ended(st, i, outcome))
  {
    var next := Ended(st, i, outcome);
    var request := st.pending[i].request;
    var name := Name(request.id, request.tag);
    assert CompletedNames(next.completed) == CompletedNames(st.completed) + [name];
    var names := PendingNames(st.pending);
    assert names == names[..i] + [name] + names[i + 1..];
    assert PendingNames(next.pending) == names[..i] + names[i + 1..];
  }

  lemma EndedSendsNothing(st: State, i: nat, outcome: Outcome)
    requires WithinRetries(st) && Spaced(st) && i < |st.pending|
    ensures WithinRetries(Ended(st, i, outcome)) && Spaced(Ended(st, i, outcome))
  {
  }

  lemma EndedKeeps(decode: Bytes -> Verdict, st: State, i: nat, outcome: Outcome)
    requires Sound(decode, st) && i < |st.pending|
    requires var request := st.pending[i].request;
             var next := st.(completed := st.completed + [Completion(request.id, request.tag, outcome)]);
             Earned(decode, next, Completion(request.id, request.tag, outcome))
    ensures Sound(decode, Ended(st, i, outcome))
  {
    hide Conserved, WithinRetries, Spaced, IsDue, HasWaited, Header, IsAnswer;
    var next := Ended(st, i, outcome);
    EndedConserves(st, i, outcome);
    EndedSendsNothing(st, i, outcome);
    forall k | 0 <= k < |next.pending| ensures Faithful(next, next.pending[k]) {
      assert next.pending[k] == st.pending[if k < i then k else k + 1];
      assert Faithful(st, next.pending[k]);
    }
    forall k | 0 <= k < |next.completed| ensures Earned(decode, next, next.completed[k]) {
      if k < |st.completed| {
        assert Earned(decode, st, st.completed[k]);
      }
    }
  }

  lemma AcceptedKeeps(st: State, packet: Bytes, decode: Bytes -> Verdict)
    requires Sound(decode, st)
    ensures Sound(decode, Accepted(st, packet, decode))
  {
    hide Sound, Header;
    var found := Matched(st.pending, packet);
    if found.Some? && decode(packet) != Undecodable {
      var outcome := if decode(packet) == Fine then Answered(packet) else Refused(packet);
      ResponseIsEarned(decode, st, found.value, packet);
      EndedKeeps(decode, st, found.value, outcome);
    }
  }

  lemma ResponseIsEarned(decode: Bytes -> Verdict, st: State, i: nat, packet: Bytes)
    requires Sound(decode, st) && Matched(st.pending, packet) == Some(i) && decode(packet) != Undecodable
    ensures var request := st.pending[i].request;
            var outcome := if decode(packet) == Fine then Answered(packet) else Refused(packet);
            var c := Completion(request.id, request.tag, outcome);
            Earned(decode, st.(completed := st.completed + [c]), c)
  {
    hide Conserved, WithinRetries, Spaced, IsDue, HasWaited;
    assert Faithful(st, st.pending[i]);
  }

  lemma {:induction false} ExpiredKeeps(decode: Bytes -> Verdict, st: State, i: nat, now: nat)
    requires Sound(decode, st) && i <= |st.pending|
    ensures Sound(decode, ExpiredFrom(st, i, now))
    decreases |st.pending| - i
  {
    hide Sound, ExpiredFrom, HasWaited;
    ExpiredAt(st, i, now);
    if i >= |st.pending| {
    } else {
      if st.pending[i].request.deadline > now {
        ExpiredKeeps(decode, st, i + 1, now);
      } else if st.pending[i].request.resendsLeft > 0 {
        ResentKeeps(decode, st, i, now);
        ExpiredKeeps(decode, Resent(st, i, now), i + 1, now);
      } else {
        TimeoutIsEarned(decode, st, i, now);
        EndedKeeps(decode, st, i, TimedOut(now));
      }
    }
  }

  lemma TimeoutIsEarned(decode: Bytes -> Verdict, st: State, i: nat, now: nat)
    requires Sound(decode, st) && i < |st.pending|
    requires st.pending[i].request.resendsLeft == 0 && st.pending[i].request.deadline <= now
    ensures var request := st.pending[i].request;
            var c := Completion(request.id, request.tag, TimedOut(now));
            Earned(decode, st.(completed := st.completed + [c]), c)
  {
    hide Conserved, WithinRetries, Spaced, Header;
    assert Faithful(st, st.pending[i]);
  }

  /** No request completes twice, and a completed one is not in flight. */
  lemma CompletesOnce(decode: Bytes -> Verdict, st: State, k: nat, l: nat)
    requires Sound(decode, st) && k < l < |st.completed|
    ensures st.completed[k].id != st.completed[l].id
    ensures forall i :: 0 <= i < |st.pending| ==> st.pending[i].request.id != st.completed[k].id
  {
    forall i | 0 <= i < |st.pending| ensures st.pending[i].request.id != st.completed[k].id {
      CompletedIsNotPending(decode, st, k, i);
    }
    if st.completed[k].id == st.completed[l].id {
      var a := CompletedNames(st.completed);
      var all := multiset(a) + multiset(PendingNames(st.pending));
      assert a[k] in all && a[l] in all;
      assert a[k] in TicketNames(st.submitted) && a[l] in TicketNames(st.submitted);
      TwiceIn(a, k, l);
      NamedOnce(st.submitted, st.completed[k].id);
    }
  }

  ghost function Tags(names: seq<Name>): seq<Tag> { seq(|names|, i requires 0 <= i < |names| => names[i].tag) }

  lemma WithoutName(a: seq<Name>, k: nat)
    requires k < |a|
    ensures multiset(a) == multiset(a[..k] + a[k + 1..]) + multiset{a[k]}
    ensures multiset(Tags(a)) == multiset(Tags(a[..k] + a[k + 1..])) + multiset{a[k].tag}
  {
    assert a == a[..k] + [a[k]] + a[k + 1..];
    assert Tags(a) == Tags(a)[..k] + [a[k].tag] + Tags(a)[k + 1..];
    assert Tags(a[..k] + a[k + 1..]) == Tags(a)[..k] + Tags(a)[k + 1..];
  }

  lemma Cancel(x: multiset<Name>, y: multiset<Name>, n: Name)
    requires x + multiset{n} == y + multiset{n}
    ensures x == y
  {
    forall m: Name ensures x[m] == y[m] {
      assert (x + multiset{n})[m] == (y + multiset{n})[m];
    }
  }

  lemma {:induction false} SameTags(a: seq<Name>, b: seq<Name>)
    requires multiset(a) == multiset(b)
    ensures multiset(Tags(a)) == multiset(Tags(b))
    decreases |a|
  {
    assert |a| == |multiset(a)| == |multiset(b)| == |b|;
    if |a| == 0 {
    } else {
      hide Tags;
      assert a[0] in multiset(b);
      var k :| 0 <= k < |b| && b[k] == a[0];
      assert a[..0] + a[1..] == a[1..];
      WithoutName(a, 0);
      WithoutName(b, k);
      Cancel(multiset(a[1..]), multiset(b[..k] + b[k + 1..]), a[0]);
      SameTags(a[1..], b[..k] + b[k + 1..]);
    }
  }

  /** The tags that were submitted are those that came back and those in flight. */
  lemma TagsAreConserved(decode: Bytes -> Verdict, st: State)
    requires Sound(decode, st)
    ensures multiset(Tags(TicketNames(st.submitted))) ==
            multiset(Tags(CompletedNames(st.completed))) + multiset(Tags(PendingNames(st.pending)))
  {
    var a, b := CompletedNames(st.completed), PendingNames(st.pending);
    assert multiset(a + b) == multiset(a) + multiset(b);
    SameTags(TicketNames(st.submitted), a + b);
    assert Tags(a + b) == Tags(a) + Tags(b);
  }

  /**
   * A response to a request that ended is dropped, unless a later request was given the same number for the same
   * group and command and is in flight: then it ends that one.
   */
  lemma LateResponse(st: State, k: nat, packet: Bytes, decode: Bytes -> Verdict)
    requires Sound(decode, st) && k < |st.completed|
    requires |packet| >= SMP_HEADER_SIZE && decode(packet) != Undecodable
    requires var ticket := st.submitted[st.completed[k].id]; var (_, group, sequence, command) := Header(packet);
             (group, sequence, command) == (ticket.group, ticket.sequence, ticket.command)
    ensures Accepted(st, packet, decode) != st <==> exists j :: IsReused(st, k, j)
  {
    var id := st.completed[k].id;
    assert Earned(decode, st, st.completed[k]);
    var found := Matched(st.pending, packet);
    if found.Some? {
      var e := st.pending[found.value];
      assert Faithful(st, e);
      CompletedIsNotPending(decode, st, k, found.value);
      assert IsReused(st, k, e.request.id);
    }
    forall j | IsReused(st, k, j) ensures found.Some? {
      var i :| 0 <= i < |st.pending| && st.pending[i].request.id == j;
      assert Faithful(st, st.pending[i]);
      var (_, _, sequence, _) := Header(packet);
      var other := Find(st.pending, sequence);
      assert other.value == i;
    }
  }

  /** Submission `j` is in flight with the number, group and command that the completed request `k` had. */
  ghost predicate IsReused(st: State, k: nat, j: nat)
    requires k < |st.completed| && st.completed[k].id < |st.submitted|
  {
    var ticket := st.submitted[st.completed[k].id];
    && st.completed[k].id < j < |st.submitted|
    && st.submitted[j].sequence == ticket.sequence
    && (st.submitted[j].group, st.submitted[j].command) == (ticket.group, ticket.command)
    && exists i :: 0 <= i < |st.pending| && st.pending[i].request.id == j
  }

  function IsFine(packet: Bytes): Verdict { Fine }

  /** After `n` requests that were answered one by one, each with the next number after `last`. */
  ghost function AnsweredRounds(last: byte, n: nat): State {
    if n == 0 then State([], [], [], [])
    else
      var ticket := PlainTicket(n - 1, After(last, n));
      Accepted(Submitted(AnsweredRounds(last, n - 1), ticket, 0), ticket.packet, IsFine)
  }

  ghost function PlainTicket(tag: Tag, sequence: byte): Ticket {
    Ticket(tag, 1, 0, sequence, EncodeRequest(0, 1, 0, [], sequence), 0, 1)
  }

  lemma {:induction false} AnsweredRoundsLeaveNothing(last: byte, n: nat)
    ensures var st := AnsweredRounds(last, n); st.pending == [] && |st.submitted| == n && Sound(IsFine, st)
  {
    hide Sound, EncodeRequest, Header;
    if n == 0 {
      NothingIsSound(IsFine);
    } else {
      AnsweredRoundsLeaveNothing(last, n - 1);
      var ticket := PlainTicket(n - 1, After(last, n));
      OneAnswered(AnsweredRounds(last, n - 1), ticket, ticket.packet);
    }
  }

  lemma NothingIsSound(decode: Bytes -> Verdict)
    ensures Sound(decode, State([], [], [], []))
  {
    assert TicketNames([]) == CompletedNames([]) == PendingNames([]) == [];
  }

  /** With nothing else in flight, a packet with the header of the request ends it. */
  lemma OneAnswered(st: State, ticket: Ticket, packet: Bytes)
    requires Sound(IsFine, st) && st.pending == []
    requires |packet| >= SMP_HEADER_SIZE
    requires (Header(packet).1, Header(packet).2, Header(packet).3) == (ticket.group, ticket.sequence, ticket.command)
    ensures var next := Submitted(st, ticket, 0);
            && Sound(IsFine, next) && Sound(IsFine, Accepted(next, packet, IsFine))
            && Accepted(next, packet, IsFine) ==
               next.(pending := [],
                     completed := next.completed + [Completion(|st.submitted|, ticket.tag, Answered(packet))])
  {
    hide Sound, Header;
    assert IsFree(st.pending, ticket.sequence);
    SubmittedKeeps(IsFine, st, ticket, 0);
    var next := Submitted(st, ticket, 0);
    AcceptedKeeps(next, packet, IsFine);
    assert Find(next.pending, ticket.sequence) == Some(0);
  }

  /** The limit is reached: a second response to request 0 ends request 256, which was given its number. */
  lemma LateResponseIsTaken(last: byte)
    ensures var ticket := PlainTicket(256, After(last, 257));
            var st := Submitted(AnsweredRounds(last, 256), ticket, 0);
            var late := EncodeRequest(0, 1, 0, [], After(last, 1));
            && Sound(IsFine, st)
            && IsNextFree([], After(last, 256), ticket.sequence)
            && Accepted(st, late, IsFine).completed == st.completed + [Completion(256, 256, Answered(late))]
  {
    hide Sound, EncodeRequest, Header, AnsweredRounds, Accepted, Submitted;
    AnsweredRoundsLeaveNothing(last, 256);
    var late := EncodeRequest(0, 1, 0, [], After(last, 1));
    assert After(last, 1) == After(last, 257);
    OneAnswered(AnsweredRounds(last, 256), PlainTicket(256, After(last, 257)), late);
    assert IsFirstFree([], After(last, 256), After(last, 257), 1);
  }

  // The measure for expiry.

  /** The sends and the timeout that the requests in flight still have before them. */
  function Budget(pending: seq<Entry>): nat {
    if |pending| == 0 then 0 else Budget(pending[..|pending| - 1]) + pending[|pending| - 1].request.resendsLeft + 1
  }

  lemma {:induction false} BudgetAppend(a: seq<Entry>, b: seq<Entry>)
    ensures Budget(a + b) == Budget(a) + Budget(b)
    decreases |b|
  {
    if |b| == 0 {
      assert a + b == a;
    } else {
      BudgetAppend(a, b[..|b| - 1]);
      assert (a + b)[..|a + b| - 1] == a + b[..|b| - 1];
    }
  }

  lemma BudgetAt(s: seq<Entry>, i: nat)
    requires i < |s|
    ensures Budget(s) == Budget(s[..i]) + s[i].request.resendsLeft + 1 + Budget(s[i + 1..])
    ensures Budget(s[..i] + s[i + 1..]) == Budget(s[..i]) + Budget(s[i + 1..])
  {
    hide Budget;
    assert s == s[..i] + ([s[i]] + s[i + 1..]);
    BudgetAppend(s[..i], [s[i]] + s[i + 1..]);
    BudgetAppend([s[i]], s[i + 1..]);
    BudgetOfOne(s[i]);
    BudgetAppend(s[..i], s[i + 1..]);
  }

  lemma BudgetOfOne(e: Entry)
    ensures Budget([e]) == e.request.resendsLeft + 1
  {
    assert [e][..0] == [];
  }

  lemma ResentSpends(st: State, i: nat, now: nat)
    requires i < |st.pending| && st.pending[i].request.resendsLeft > 0
    ensures Budget(Resent(st, i, now).pending) == Budget(st.pending) - 1
  {
    var next := Resent(st, i, now).pending;
    BudgetAt(st.pending, i);
    BudgetAt(next, i);
    assert next[..i] == st.pending[..i] && next[i + 1..] == st.pending[i + 1..];
  }

  /** A pass either leaves a request out of time with nothing to send, or spends; afterwards nothing is overdue. */
  lemma {:induction false} ExpiredSpends(st: State, i: nat, now: nat)
    requires i <= |st.pending|
    ensures var next := ExpiredFrom(st, i, now);
            && Budget(next.pending) <= Budget(st.pending)
            && (next.completed == st.completed ==> |next.pending| == |st.pending|)
            && (next.completed == st.completed || Ends(st, next))
            && ((exists k :: i <= k < |st.pending| && st.pending[k].request.deadline <= now) ==>
                next.completed != st.completed || Budget(next.pending) < Budget(st.pending))
            && (next.completed == st.completed <==>
                forall k :: i <= k < |st.pending| && st.pending[k].request.deadline <= now ==>
                  st.pending[k].request.resendsLeft > 0)
    decreases |st.pending| - i
  {
    hide Budget, ExpiredFrom;
    ExpiredAt(st, i, now);
    if i >= |st.pending| {
    } else {
      if st.pending[i].request.deadline > now {
        ExpiredSpends(st, i + 1, now);
      } else if st.pending[i].request.resendsLeft > 0 {
        ResentSpends(st, i, now);
        var again := Resent(st, i, now);
        ExpiredSpends(again, i + 1, now);
        assert forall k :: i < k < |st.pending| ==> again.pending[k] == st.pending[k];
      } else {
        BudgetAt(st.pending, i);
        assert st.pending[i].request.deadline <= now && st.pending[i].request.resendsLeft == 0;
      }
    }
  }

  /** Exactly one more request ended. */
  ghost predicate Ends(st: State, next: State) {
    && |next.completed| == |st.completed| + 1
    && next.completed[..|st.completed|] == st.completed
    && |next.pending| + 1 == |st.pending|
  }

  lemma AcceptedEnds(st: State, packet: Bytes, decode: Bytes -> Verdict)
    ensures var next := Accepted(st, packet, decode); next == st || Ends(st, next)
  {
  }

  // The pipeline itself.

  /** The numbers passed by since `last` are distinct while they are fewer than 256, so few enough are taken. */
  lemma TakenAreFew(pending: seq<Entry>, last: byte, c: nat)
    requires c <= 256
    requires forall d :: 0 < d <= c ==> IsTaken(pending, last, d)
    ensures c <= |pending|
  {
    var passed := Passed(last, c);
    var taken := set i | 0 <= i < |pending| :: pending[i].sequence;
    forall x | x in passed ensures x in taken {
      var d :| 0 < d <= c && x == After(last, d);
      assert IsTaken(pending, last, d);
    }
    SubsetIsSmaller(passed, taken);
    TakenSize(pending);
  }

  ghost function Passed(last: byte, c: nat): (s: set<byte>)
    requires c <= 256
    ensures |s| == c
    ensures forall x :: x in s ==> exists d :: 0 < d <= c && x == After(last, d)
  {
    if c == 0 then {}
    else
      AfterIsNew(last, c);
      Passed(last, c - 1) + {After(last, c)}
  }

  lemma AfterIsNew(last: byte, c: nat)
    requires 0 < c <= 256
    ensures forall d :: 0 < d < c ==> After(last, d) != After(last, c)
  {
  }

  lemma {:induction false} SubsetIsSmaller(a: set<byte>, b: set<byte>)
    requires a <= b
    ensures |a| <= |b|
  {
    assert b == a + (b - a);
  }

  lemma {:induction false} TakenSize(pending: seq<Entry>)
    ensures |set i | 0 <= i < |pending| :: pending[i].sequence| <= |pending|
    decreases |pending|
  {
    if |pending| == 0 {
    } else {
      var n := |pending| - 1;
      TakenSize(pending[..n]);
      var rest := set i | 0 <= i < n :: pending[..n][i].sequence;
      assert (set i | 0 <= i < |pending| :: pending[i].sequence) == rest + {pending[n].sequence};
    }
  }

  class SmpPipeline {
    /** The client's last sequence number. */
    var sequence: byte
    var pending: seq<Entry>
    /** What the link was given to send, and what the callers submitted and got back. */
    var sent: seq<Sent>
    ghost var submitted: seq<Ticket>
    ghost var completed: seq<Completion>
    var submissions: nat
    const decode: Bytes -> Verdict

    ghost function Contents(): State
      reads this
    {
      State(pending, submitted, sent, completed)
    }

    ghost predicate Valid()
      reads this
    {
      Sound(decode, Contents()) && submissions == |submitted|
    }

    constructor (first: byte, decode: Bytes -> Verdict)
      ensures Valid() && Contents() == State([], [], [], []) && sequence == first && this.decode == decode
    {
      hide Sound;
      sequence := first;
      pending := [];
      sent := [];
      submitted := [];
      completed := [];
      submissions := 0;
      this.decode := decode;
      NothingIsSound(decode);
    }

    /** The next free number. The search ends because at most 255 numbers are taken. */
    method NextFree()
      requires |pending| <= 0xFF
      modifies `sequence
      ensures IsNextFree(pending, old(sequence), sequence)
    {
      hide After;
      ghost var c: nat := 1;
      AfterNext(sequence, 0);
      sequence := (sequence + 1) % 256;
      while !IsFree(pending, sequence)
        invariant 0 < c <= 256 && sequence == After(old(sequence), c)
        invariant forall d :: 0 < d < c ==> IsTaken(pending, old(sequence), d)
        decreases 256 - c
      {
        assert IsTaken(pending, old(sequence), c);
        TakenAreFew(pending, old(sequence), c);
        AfterNext(old(sequence), c);
        sequence := (sequence + 1) % 256;
        c := c + 1;
      }
      assert IsFirstFree(pending, old(sequence), sequence, c);
    }

    /** Sends a request under a free number, or refuses it when all 256 are taken. */
    method Submit(op: byte, group: nat, command: byte, body: Bytes, tag: Tag, retries: nat, timeout: nat, now: nat)
      returns (ok: bool)
      requires Valid()
      requires op < 8 && group < 0x1_0000 && |body| < 0x1_0000
      modifies this
      ensures Valid()
      ensures ok == (|old(pending)| <= 0xFF)
      ensures !ok ==> Contents() == old(Contents()) && sequence == old(sequence)
      ensures ok ==> IsNextFree(old(pending), old(sequence), sequence)
      ensures ok ==> Contents() == Submitted(
                old(Contents()),
                Ticket(tag, group, command, sequence, EncodeRequest(op, group, command, body, sequence), retries,
                       timeout),
                now)
    {
      hide Sound, EncodeRequest, IsFirstFree;
      if |pending| > 0xFF {
        return false;
      }
      NextFree();
      var packet := EncodeRequest(op, group, command, body, sequence);
      ghost var ticket := Ticket(tag, group, command, sequence, packet, retries, timeout);
      SubmittedKeeps(decode, Contents(), ticket, now);
      var request := Request(submissions, tag, group, command, packet, timeout, retries, now + timeout);
      pending := pending + [Entry(sequence, request)];
      sent := sent + [Sent(submissions, packet, now)];
      submitted := submitted + [ticket];
      submissions := submissions + 1;
      ok := true;
    }

    /** Takes a packet from the link: the completion of the request it answers, if it answers one. */
    method Accept(packet: Bytes) returns (completion: Option<Completion>)
      requires Valid()
      modifies `pending, `completed
      ensures Valid()
      ensures Contents() == Accepted(old(Contents()), packet, decode)
      ensures completed == old(completed) + if completion.Some? then [completion.value] else []
      ensures completion.Some? <==> old(EndsOne(packet))
      ensures completion.None? ==> Contents() == old(Contents())
      ensures completion.Some? ==>
                completion.value.outcome == if decode(packet) == Failed then Refused(packet) else Answered(packet)
    {
      hide Sound;
      AcceptedKeeps(Contents(), packet, decode);
      if |packet| < SMP_HEADER_SIZE {
        return None;
      }
      var (_, group, number, command) := Header(packet);
      var found := Find(pending, number);
      if found.None? {
        return None;
      }
      var request := pending[found.value].request;
      if (group, command) != (request.group, request.command) {
        return None;
      }
      var verdict := decode(packet);
      if verdict == Undecodable {
        return None;
      }
      var ended := End(found.value, if verdict == Fine then Answered(packet) else Refused(packet));
      completion := Some(ended);
    }

    /** Takes the request at `i` out of flight. */
    method End(i: nat, outcome: Outcome) returns (completion: Completion)
      requires i < |pending|
      modifies `pending, `completed
      ensures Contents() == Ended(old(Contents()), i, outcome)
      ensures completed == old(completed) + [completion] && completion.outcome == outcome
    {
      completion := Completion(pending[i].request.id, pending[i].request.tag, outcome);
      pending := pending[..i] + pending[i + 1..];
      completed := completed + [completion];
    }

    method Resend(i: nat, now: nat)
      requires i < |pending| && pending[i].request.resendsLeft > 0
      modifies `pending, `sent
      ensures Contents() == Resent(old(Contents()), i, now)
      ensures |pending| == |old(pending)|
    {
      var request := pending[i].request;
      var again := request.(resendsLeft := request.resendsLeft - 1, deadline := now + request.timeout);
      pending := pending[i := pending[i].(request := again)];
      sent := sent + [Sent(again.id, again.packet, now)];
    }

    /** What a pass does with the request at `i`. */
    method Attend(i: nat, now: nat) returns (completion: Option<Completion>)
      requires i < |pending|
      modifies `pending, `completed, `sent
      ensures completion.Some? ==> Contents() == ExpiredFrom(old(Contents()), i, now)
      ensures completion.None? ==>
                && |pending| == |old(pending)|
                && ExpiredFrom(Contents(), i + 1, now) == ExpiredFrom(old(Contents()), i, now)
      ensures completed == old(completed) + if completion.Some? then [completion.value] else []
    {
      hide Resent, Ended, ExpiredFrom;
      ExpiredAt(Contents(), i, now);
      if pending[i].request.deadline > now {
        completion := None;
      } else if pending[i].request.resendsLeft > 0 {
        Resend(i, now);
        completion := None;
      } else {
        var ended := End(i, TimedOut(now));
        completion := Some(ended);
      }
    }

    /** Goes through the requests whose deadline passed. */
    method Expire(now: nat) returns (completion: Option<Completion>)
      requires Valid()
      modifies `pending, `completed, `sent
      ensures Valid()
      ensures Contents() == ExpiredFrom(old(Contents()), 0, now)
      ensures completed == old(completed) + if completion.Some? then [completion.value] else []
    {
      hide Sound, ExpiredFrom;
      ExpiredKeeps(decode, Contents(), 0, now);
      ghost var target := ExpiredFrom(Contents(), 0, now);
      var i: nat := 0;
      while i < |pending|
        invariant i <= |pending|
        invariant ExpiredFrom(Contents(), i, now) == target
        invariant completed == old(completed)
        decreases |pending| - i
      {
        completion := Attend(i, now);
        if completion.Some? {
          return;
        }
        i := i + 1;
      }
      ExpiredAt(Contents(), i, now);
      completion := None;
    }

    /** The earliest deadline. */
    method Earliest() returns (deadline: nat)
      requires |pending| > 0
      ensures exists i :: 0 <= i < |pending| && pending[i].request.deadline == deadline
      ensures forall i :: 0 <= i < |pending| ==> deadline <= pending[i].request.deadline
    {
      deadline := pending[0].request.deadline;
      var i := 1;
      while i < |pending|
        invariant 1 <= i <= |pending|
        invariant exists k :: 0 <= k < |pending| && pending[k].request.deadline == deadline
        invariant forall k :: 0 <= k < i ==> deadline <= pending[k].request.deadline
      {
        if pending[i].request.deadline < deadline {
          deadline := pending[i].request.deadline;
        }
        i := i + 1;
      }
    }

    /**
     * Waits until a request in flight ends. The link brings any packets at any time, of which up to `strays` end
     * nothing; when it brings none, it waited for the earliest deadline. The wait ends within a bound.
     */
    method NextCompletion(start: nat, strays: nat) returns (completion: Option<Completion>, ghost rounds: nat, now: nat)
      requires Valid()
      modifies `pending, `completed, `sent
      ensures Valid() && submitted == old(submitted) && now >= start
      ensures completion.None? <==> old(pending) == []
      ensures completed == old(completed) + if completion.Some? then [completion.value] else []
      ensures |pending| + |completed| == old(|pending| + |completed|)
      ensures rounds <= strays + Budget(old(pending))
    {
      hide Sound, ExpiredFrom, Accepted, Matched, Budget;
      rounds := 0;
      now := start;
      if |pending| == 0 {
        return None, rounds, now;
      }
      var straysLeft: nat := strays;
      while true
        invariant Valid() && submitted == old(submitted) && completed == old(completed) && now >= start
        invariant |pending| == |old(pending)| > 0
        invariant rounds + straysLeft + Budget(pending) <= strays + Budget(old(pending))
        decreases straysLeft + Budget(pending)
      {
        var deadline := Earliest();
        var packet: Option<Bytes> :| straysLeft == 0 && packet.Some? ==> EndsOne(packet.value);
        var earliest := if packet.None? && now < deadline then deadline else now;
        now :| now >= earliest;
        ghost var st := Contents();
        if packet.Some? {
          AcceptedEnds(st, packet.value, decode);
          completion := Accept(packet.value);
          if completion.Some? {
            rounds := rounds + 1;
            SomePending(st.pending);
            return;
          }
          straysLeft := straysLeft - 1;
        }
        ExpiredSpends(Contents(), 0, now);
        completion := Expire(now);
        rounds := rounds + 1;
        if completion.Some? {
          SomePending(st.pending);
          return;
        }
      }
    }

    /** The packet answers a request in flight. */
    predicate EndsOne(packet: Bytes)
      reads this
    {
      Matched(pending, packet).Some? && decode(packet) != Undecodable
    }
  }

  lemma AfterNext(last: byte, d: nat)
    ensures After(last, 0) == last && After(last, d + 1) == (After(last, d) + 1) % 256
  {
  }

  lemma SomePending(pending: seq<Entry>)
    requires |pending| > 0
    ensures Budget(pending) > 0
  {
  }
}
