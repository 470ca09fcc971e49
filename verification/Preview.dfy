/**
 * The UI preview: shows a staged configuration without storing it. Whatever is asked for, and whichever steps the
 * lease and the ends come between, what the unit takes for shown is what its screens show, and screens that are not
 * the stored ones belong to a session that puts them back. A store meanwhile can break both, and it is said how.
 */
module Preview {
  import opened Common

  /** A UI configuration, told apart from others by a number. */
  type Config = nat

  /** The records of a patch; `growth` is what they take. */
  datatype Ops = Ops(code: nat, isDecodable: bool, growth: nat)

  datatype Error =
    | NoError | Unknown | NoSession | BadToken | Busy | Stale | BaseMismatch | TooLarge | BadOffset | CrcMismatch
    | Invalid | NoMemory

  /** What the display and the codecs do with configurations. */
  datatype Models = Models(
    parse: Bytes -> Option<Config>,
    crc: Bytes -> nat,
    patch: (Config, Ops) -> Option<Config>,
    isValid: Config -> bool,
    size: Config -> nat)

  /** A decoded configuration is encoded no longer than it came, and grows with a patch by its records at most. */
  ghost predicate HasHonestSizes(m: Models) {
    && (forall b :: m.parse(b).Some? ==> m.size(m.parse(b).value) <= |b|)
    && (forall c, ops :: m.patch(c, ops).Some? ==> m.size(m.patch(c, ops).value) <= m.size(c) + ops.growth)
  }

  // The session.

  datatype Session = Session(
    token: nat, isPinned: bool, isFresh: bool, lastActivity: nat, rev: nat,
    hasApplied: bool, hasNavigated: bool, isApplying: bool,
    isStaging: bool, capacity: nat, length: nat, crc: nat, received: Bytes, requestedRev: Option<nat>)

  function Closed(): Session { Session(0, true, false, 0, 0, false, false, false, false, 0, 0, 0, [], None) }

  predicate IsActive(s: Session) { s.token != 0 }

  /** The revision of a session never goes back. */
  predicate KeepsRevision(before: Session, after: Session) {
    IsActive(after) && after.token == before.token ==> after.rev >= before.rev
  }

  /** Opens a session, renews it, or repeats the answer that opened it. */
  function Begun(s: Session, token: Option<nat>, isPinned: bool, newToken: nat, now: nat): (Session, Error, bool) {
    if s.token == 0 then
      if token.Some? then (s, NoSession, false)
      else (s.(token := newToken, isPinned := isPinned, isFresh := true, lastActivity := now, rev := 0,
               hasApplied := false, hasNavigated := false, isApplying := false, isStaging := false), NoError, true)
    else if token.Some? then
      if token.value != s.token then (s, BadToken, false)
      else (s.(isFresh := false, lastActivity := now), NoError, false)
    else if s.isFresh && isPinned == s.isPinned then (s.(lastActivity := now), NoError, false)
    else (s, Busy, false)
  }

  function Touched(s: Session, token: nat, now: nat): (Session, Error) {
    if s.token == 0 then (s, NoSession)
    else if token != s.token then (s, BadToken)
    else (s.(isFresh := false, lastActivity := now), NoError)
  }

  datatype Chunk = Chunk(offset: nat, data: Bytes, length: Option<nat>, crc: Option<nat>, rev: Option<nat>)

  /** Takes the next chunk of a transfer; with the last one the session is applying. */
  function Staged(before: Session, token: nat, c: Chunk, now: nat): (Session, Error) {
    var (s, error) := Touched(before, token, now);
    if error != NoError then (s, error)
    else if s.isApplying then (s, Busy)
    else if c.offset == 0 then
      if c.length.None? || c.crc.None? then (s, Unknown)
      else if c.rev.Some? && c.rev.value <= s.rev then (s.(isStaging := false), Stale)
      else if c.length.value == 0 || c.length.value > s.capacity then (s.(isStaging := false), TooLarge)
      else
        var started := s.(isStaging := true, length := c.length.value, crc := c.crc.value);
        Appended(started.(received := [], requestedRev := c.rev), c.data)
    else if !s.isStaging || c.offset != |s.received| then (s, BadOffset)
    else Appended(s, c.data)
  }

  function Appended(s: Session, data: Bytes): (Session, Error) {
    if |s.received| + |data| > s.length then (s.(isStaging := false), TooLarge)
    else
      var received := s.received + data;
      (s.(received := received, isApplying := |received| == s.length), NoError)
  }

  /** The transfer stays within its length, and the session applies once it is whole. */
  lemma StagedKeeps(s: Session, token: nat, c: Chunk, now: nat)
    requires !s.isApplying && (s.isStaging ==> |s.received| <= s.length <= s.capacity)
    ensures var (next, error) := Staged(s, token, c, now);
            && next.token == s.token && next.hasApplied == s.hasApplied && next.capacity == s.capacity
            && (next.isStaging ==> |next.received| <= next.length <= next.capacity)
            && (next.isApplying ==> error == NoError && IsActive(next) && |next.received| == next.length)
  {
  }

  /** A chunk that is taken is put behind what came before it. */
  lemma StagedAppends(s: Session, token: nat, c: Chunk, now: nat)
    requires !s.isApplying && (s.isStaging ==> |s.received| <= s.length <= s.capacity)
    requires Staged(s, token, c, now).1 == NoError
    ensures var next := Staged(s, token, c, now).0;
            && next.received == (if c.offset == 0 then [] else s.received) + c.data
            && (c.offset == 0 || c.offset == |s.received|)
            && (next.isApplying <==> |next.received| == next.length)
            && if c.offset == 0 then
                 && c.length == Some(next.length) && c.crc == Some(next.crc) && c.rev == next.requestedRev
                 && (c.rev.Some? ==> c.rev.value > s.rev)
               else
                 next.length == s.length && next.crc == s.crc && next.requestedRev == s.requestedRev
  {
  }

  /** Only who holds the session's token is let in, and only that renews the lease. */
  lemma OnlyTheHolder(s: Session, token: nat, c: Chunk, rev: nat, now: nat)
    ensures IsActive(s) && token == s.token ==>
              && Touched(s, token, now) == (s.(isFresh := false, lastActivity := now), NoError)
              && Staged(s, token, c, now).0.lastActivity == PatchBegun(s, token, rev, now).0.lastActivity == now
    ensures !(IsActive(s) && token == s.token) ==>
              var error := if IsActive(s) then BadToken else NoSession;
              Touched(s, token, now) == Staged(s, token, c, now) == PatchBegun(s, token, rev, now) == (s, error)
  {
  }

  /** A new session needs that there is none and no token; an open one is for its token, or the repeated request. */
  lemma BegunExactly(s: Session, token: Option<nat>, isPinned: bool, newToken: nat, now: nat)
    requires newToken != 0
    ensures var (next, error, isCreated) := Begun(s, token, isPinned, newToken, now);
            && (isCreated <==> !IsActive(s) && token.None?)
            && (error == NoError <==>
                isCreated || (IsActive(s) && token == Some(s.token)) ||
                (IsActive(s) && token.None? && s.isFresh && isPinned == s.isPinned))
            && (error == NoError ==> IsActive(next) && next.lastActivity == now)
            && (error == NoError && !isCreated ==>
                next == s.(lastActivity := now, isFresh := s.isFresh && token.None?))
            && (isCreated ==> next.token == newToken && next.isPinned == isPinned && next.rev == 0 && next.isFresh)
            && (error != NoError ==> next == s)
  {
  }

  /** Which chunks are taken: the start of a transfer that fits and is not stale, or what comes next of one. */
  lemma TakenExactly(s: Session, token: nat, c: Chunk, now: nat)
    requires s.isStaging ==> |s.received| <= s.length <= s.capacity
    ensures Staged(s, token, c, now).1 == NoError <==>
              && IsActive(s) && token == s.token && !s.isApplying
              && if c.offset == 0 then
                   && c.length.Some? && c.crc.Some? && (c.rev.Some? ==> c.rev.value > s.rev)
                   && 0 < c.length.value <= s.capacity && |c.data| <= c.length.value
                 else
                   s.isStaging && c.offset == |s.received| && c.offset + |c.data| <= s.length
  {
  }

  function PatchBegun(before: Session, token: nat, rev: nat, now: nat): (Session, Error) {
    var (s, error) := Touched(before, token, now);
    if error != NoError then (s, error)
    else if s.isApplying || s.isStaging then (s, Busy)
    else if rev <= s.rev then (s, Stale)
    else (s.(isApplying := true), NoError)
  }

  /** The revision asked for if that is later, else one more. */
  function StageCommitted(s: Session): Session {
    var rev := if s.requestedRev.Some? && s.requestedRev.value > s.rev then s.requestedRev.value else s.rev + 1;
    s.(rev := rev, isStaging := false, received := [])
  }

  // The host.

  /** The screens show what is stored, a configuration that is not, or what is left of a change that failed. */
  datatype Screens = StoredShown | Shown(config: Config) | Partial

  /** How a call of the host ends; a configuration without a screen to show is shown all the same. */
  datatype Outcome = Done | NoScreen | Failed | Threw

  predicate IsShown(outcome: Outcome) { outcome == Done || outcome == NoScreen }

  class Host {
    var screens: Screens
    /** A configuration was stored, and its rebuild of the screens waits. */
    var isRebuildQueued: bool

    constructor ()
      ensures screens == StoredShown && !isRebuildQueued
    {
      screens := StoredShown;
      isRebuildQueued := false;
    }

    /** Any call may fail; then the screens may be half built. */
    method Show(target: Screens) returns (outcome: Outcome)
      modifies `screens
      ensures screens == if IsShown(outcome) then target else Partial
    {
      if * {
        outcome := Done;
      } else if * {
        outcome := NoScreen;
      } else if * {
        outcome := Failed;
      } else {
        outcome := Threw;
      }
      screens := if IsShown(outcome) then target else Partial;
    }

    /** A patch brings the screens to the patched configuration, or leaves them half patched. */
    method ApplyPatch(patched: Config) returns (isDone: bool)
      modifies `screens
      ensures screens == if isDone then Shown(patched) else Partial
    {
      isDone := *;
      screens := if isDone then Shown(patched) else Partial;
    }
  }

  /** How far the handler of a request is; between its jobs the render queue may run the lease and the ends. */
  datatype Phase =
    | Idle
    | Received | Parsed | StageOver
    | PatchOpen(ops: Ops, rev: nat) | Prepared(ops: Ops, rev: nat) | PatchOver

  /** Why a session is to end that no one asked to end. */
  datatype EndReason = LinkDropped | ConfigurationStored

  class UiPreviewService {
    const models: Models
    const leaseMs: nat
    /** The most bytes a stage takes. */
    const maxStageSize: nat
    const host: Host

    var session: Session
    var phase: Phase
    var parsed: Option<Config>
    var parsedSize: nat
    var staged: Option<Config>
    var patched: Option<Config>
    var stagedSizeBound: nat
    var patchedSizeBound: nat
    var pendingEnd: set<EndReason>
    /** The host refused to show the stored screens when they were due, and they have not come back since. */
    ghost var isRefused: bool
    /** A session that ended for a store left its screens, though the store's rebuild was over. */
    ghost var isLeft: bool
    /** The rebuild of a store came over what was staged. */
    ghost var isOverwritten: bool

    constructor (models: Models, leaseMs: nat, maxStageSize: nat)
      requires HasHonestSizes(models)
      ensures IsSafe() && fresh(host) && host.screens == StoredShown && phase == Idle && !IsActive(session)
      ensures this.models == models && this.leaseMs == leaseMs && this.maxStageSize == maxStageSize
      ensures !isRefused && !isLeft && !isOverwritten && !host.isRebuildQueued
    {
      this.models := models;
      this.leaseMs := leaseMs;
      this.maxStageSize := maxStageSize;
      host := new Host();
      session := Closed();
      phase := Idle;
      parsed, staged, patched := None, None, None;
      parsedSize, stagedSizeBound, patchedSizeBound := 0, 0, 0;
      pendingEnd := {};
      isRefused, isLeft, isOverwritten := false, false, false;
    }

    /** What is taken for shown is what the screens show; it is within the bound, and the bound within a stage. */
    ghost predicate IsShowing()
      reads this, host
    {
      staged.Some? ==>
        && (host.screens == Shown(staged.value) || isOverwritten) && IsActive(session) && session.hasApplied
        && models.size(staged.value) <= stagedSizeBound <= maxStageSize
    }

    /** The screens are the stored ones, or will be without a session, or it is known that they were left. */
    ghost predicate AreAccountedFor()
      reads this, host
    {
      host.screens == StoredShown || host.isRebuildQueued || isRefused || isLeft
    }

    /** Else they are marked for whatever ends the session. */
    ghost predicate IsMarked()
      reads this, host
    {
      && (AreAccountedFor() || (IsActive(session) && session.hasApplied))
      && (isRefused || isLeft ==> host.screens != StoredShown)
    }

    /** A request that is being applied keeps its session, and what its jobs hand on. */
    ghost predicate IsApplying()
      reads this
    {
      && (phase == Idle <==> !session.isApplying)
      && (session.isApplying ==> IsActive(session))
      && (parsed.Some? ==> models.size(parsed.value) <= parsedSize <= maxStageSize)
      && (phase == Parsed ==> IsParsed())
      && (phase.PatchOpen? || phase.Prepared? ==> phase.rev > session.rev)
      && (phase.Prepared? ==>
          && patched.Some? && staged.Some? && models.patch(staged.value, phase.ops) == patched
          && models.size(patched.value) <= patchedSizeBound <= maxStageSize)
    }

    /** What was parsed is all of the transfer, and had the CRC that was announced. */
    ghost predicate IsParsed()
      reads this
    {
      && parsed.Some? && parsed == models.parse(session.received)
      && |session.received| == session.length && models.crc(session.received) == session.crc
    }

    ghost predicate HasBuffer()
      reads this
    {
      && session.capacity <= maxStageSize
      && (session.isStaging ==> |session.received| <= session.length <= session.capacity)
    }

    ghost predicate IsSafe()
      reads this, host
    {
      HasHonestSizes(models) && IsShowing() && IsMarked() && IsApplying() && HasBuffer()
    }

    /** Shows the stored screens again. Where that fails the session stays marked, if there is one. */
    method RestoreStoredScreens()
      requires IsActive(session) ==> session.hasApplied
      modifies this`staged, this`session, this`isRefused, this`isLeft, host`screens
      ensures staged == None && (host.screens == StoredShown || host.screens == Partial)
      ensures session == if host.screens == StoredShown then old(session).(hasApplied := false) else old(session)
      ensures isRefused == (host.screens != StoredShown && (old(isRefused) || !IsActive(session)))
      ensures isLeft == (host.screens != StoredShown && old(isLeft))
    {
      staged := None;
      var outcome := host.Show(StoredShown);
      if IsShown(outcome) {
        session := session.(hasApplied := false);
      }
      isRefused := !IsShown(outcome) && (isRefused || !IsActive(session));
      isLeft := !IsShown(outcome) && isLeft;
    }

    method ExecuteBegin(token: Option<nat>, isPinned: bool, newToken: nat, now: nat) returns (error: Error)
      requires IsSafe() && newToken != 0
      modifies this`session, this`staged
      ensures KeepsRevision(old(session), session)
      ensures IsSafe()
      ensures old(IsActive(session)) ==> staged == old(staged) && session.token == old(session.token)
      ensures error == NoError && !old(IsActive(session)) ==> session.token == newToken && !session.hasApplied
      // What the session answers, unless a new one finds no memory for its stage.
      ensures var (begun, answer, isCreated) := Begun(old(session), token, isPinned, newToken, now);
              if error == NoMemory then isCreated && session == Closed()
              else error == answer && session == if isCreated then begun.(capacity := maxStageSize) else begun
    {
      var (begun, answer, isCreated) := Begun(session, token, isPinned, newToken, now);
      session, error := begun, answer;
      if isCreated {
        // The stage buffer may not fit the heap.
        var fits: bool := *;
        if !fits {
          session := Closed();
          return NoMemory;
        }
        session := session.(capacity := maxStageSize);
        staged := None;
      }
    }

    // A stage: its chunks, then its two jobs.

    /** A chunk. The last one leaves the session applying, so that no end takes the buffer meanwhile. */
    method TakeChunk(token: nat, c: Chunk, now: nat) returns (error: Error)
      requires IsSafe() && phase == Idle
      modifies this`session, this`phase
      ensures KeepsRevision(old(session), session)
      ensures IsSafe() && session.token == old(session.token)
      ensures phase == if session.isApplying then Received else Idle
      ensures phase == Received ==> |session.received| == session.length && error == NoError
    {
      StagedKeeps(session, token, c, now);
      hide Staged, HasHonestSizes;
      var (next, answer) := Staged(session, token, c, now);
      session, error := next, answer;
      if session.isApplying {
        phase := Received;
      }
    }

    /** Checks what was staged as an upload is. */
    method ExecuteParse() returns (error: Error)
      requires IsSafe() && phase == Received
      modifies this`parsed, this`parsedSize, this`phase
      ensures IsSafe()
      ensures phase == if error == NoError then Parsed else StageOver
      ensures error == NoError ==> IsParsed()
      ensures error == NoError <==>
                && session.isStaging && |session.received| == session.length > 0
                && models.crc(session.received) == session.crc && models.parse(session.received).Some?
    {
      phase := StageOver;
      if !IsActive(session) || !session.isStaging || |session.received| != session.length || session.length == 0 {
        return NoSession;
      }
      if models.crc(session.received) != session.crc {
        return CrcMismatch;
      }
      parsedSize := |session.received|;
      parsed := models.parse(session.received);
      if parsed.None? {
        return Invalid;
      }
      phase := Parsed;
      error := NoError;
    }

    /** Shows what was staged: whole, or the stored screens come back. */
    method ExecuteApply() returns (error: Error)
      requires IsSafe() && phase == Parsed
      modifies this`parsed, this`staged, this`stagedSizeBound, this`session, this`phase, host`screens
      modifies this`isRefused, this`isLeft, this`isOverwritten
      ensures isOverwritten ==> old(isOverwritten)
      ensures isLeft ==> old(isLeft)
      ensures KeepsRevision(old(session), session)
      ensures IsSafe() && phase == StageOver && session.token == old(session.token) && session.isApplying
      ensures error == NoError <==> staged.Some?
      ensures error == NoError ==>
                && staged == models.parse(old(session.received)) && old(models.crc(session.received) == session.crc)
                && host.screens == Shown(staged.value) && !isOverwritten
                && session.rev > old(session.rev)
                && (old(session).requestedRev.Some? && old(session).requestedRev.value > old(session).rev ==>
                    session.rev == old(session).requestedRev.value)
      // A failure leaves the stored screens, unless the host refuses them too; it is then for the session's end.
      ensures error != NoError && old(parsed).Some? ==>
                host.screens == StoredShown || (host.screens == Partial && session.hasApplied)
    {
      var configuration := parsed;
      parsed := None;
      phase := StageOver;
      if !IsActive(session) || configuration.None? {
        return NoSession;
      }
      session := session.(hasApplied := true);
      staged := None;
      var outcome := host.Show(Shown(configuration.value));
      if !IsShown(outcome) {
        RestoreStoredScreens();
        return Unknown;
      }
      staged := configuration;
      isOverwritten := false;
      stagedSizeBound := parsedSize;
      session := StageCommitted(session);
      error := NoError;
    }

    /** The request of a stage is over, whatever came of it; the lease runs from here. */
    method FinishStage(token: nat, now: nat)
      requires IsSafe() && phase == StageOver
      modifies this`parsed, this`session, this`phase
      ensures KeepsRevision(old(session), session)
      ensures IsSafe() && phase == Idle && session.token == old(session.token) && !session.isApplying
      ensures !session.isStaging
    {
      parsed := None;
      session := session.(isStaging := false, received := [], isApplying := false);
      var (touched, _) := Touched(session, token, now);
      session := touched;
      phase := Idle;
    }

    // A patch: its checks, then its two jobs.

    method BeginPatch(token: nat, rev: nat, ops: Ops, isWithinLimits: bool, now: nat) returns (error: Error)
      requires IsSafe() && phase == Idle
      modifies this`session, this`phase
      ensures KeepsRevision(old(session), session)
      ensures IsSafe() && session.token == old(session.token)
      ensures phase == if error == NoError then PatchOpen(ops, rev) else Idle
      ensures error == NoError <==>
                && IsActive(session) && token == session.token && isWithinLimits
                && !old(session).isApplying && !session.isStaging && rev > session.rev
    {
      var (touched, known) := Touched(session, token, now);
      session, error := touched, known;
      if error != NoError {
        return;
      }
      if !isWithinLimits {
        return TooLarge;
      }
      var (begun, answer) := PatchBegun(session, token, rev, now);
      session, error := begun, answer;
      if error == NoError {
        phase := PatchOpen(ops, rev);
      }
    }

    /** Applies the operations to a copy, checks it as an upload, and keeps it within a stage. */
    method ExecutePatchPrepare() returns (error: Error)
      requires IsSafe() && phase.PatchOpen?
      modifies this`patched, this`patchedSizeBound, this`phase
      ensures IsSafe()
      ensures phase == if error == NoError then Prepared(old(phase).ops, old(phase).rev) else PatchOver
      ensures error == NoError <==>
                && staged.Some? && old(phase).ops.isDecodable
                && models.patch(staged.value, old(phase).ops).Some?
                && var config := models.patch(staged.value, old(phase).ops).value;
                && models.isValid(config) && models.size(config) <= maxStageSize
                && (stagedSizeBound + old(phase).ops.growth <= maxStageSize || models.size(config) > 0)
      // It is measured only where its bound says that it may be too large.
      ensures error == TooLarge ==>
                staged.Some? && models.patch(staged.value, old(phase).ops).Some? &&
                models.size(models.patch(staged.value, old(phase).ops).value) > maxStageSize
    {
      var ops, rev := phase.ops, phase.rev;
      phase := PatchOver;
      if !IsActive(session) {
        return NoSession;
      }
      if staged.None? {
        return BaseMismatch;
      }
      patched := None;
      if !ops.isDecodable {
        return Invalid;
      }
      patched := models.patch(staged.value, ops);
      if patched.None? {
        return BaseMismatch;
      }
      if !models.isValid(patched.value) {
        patched := None;
        return Invalid;
      }
      patchedSizeBound := stagedSizeBound + ops.growth;
      if patchedSizeBound > maxStageSize {
        var size := models.size(patched.value);
        if size == 0 {
          return Unknown;
        }
        if size > maxStageSize {
          patched := None;
          return TooLarge;
        }
        patchedSizeBound := size;
      }
      phase := Prepared(ops, rev);
      error := NoError;
    }

    /** Shows the patched configuration; else what was shown; else what is stored. */
    method ExecutePatchApply() returns (error: Error)
      requires IsSafe() && phase.Prepared?
      modifies this`staged, this`stagedSizeBound, this`session, this`phase, host`screens
      modifies this`isRefused, this`isLeft, this`isOverwritten
      ensures isOverwritten ==> old(isOverwritten)
      ensures isLeft ==> old(isLeft)
      ensures KeepsRevision(old(session), session)
      ensures IsSafe() && phase == PatchOver && session.token == old(session.token) && session.isApplying
      ensures error == NoError ==>
                && staged == models.patch(old(staged).value, old(phase).ops) && staged.Some?
                && host.screens == Shown(staged.value) && session.rev == old(phase).rev
      ensures error != NoError ==>
                || (staged == old(staged) && host.screens == Shown(staged.value))
                || (staged == None && (host.screens == StoredShown || (host.screens == Partial && session.hasApplied)))
    {
      var rev := phase.rev;
      phase := PatchOver;
      if !IsActive(session) || patched.None? || staged.None? {
        return NoSession;
      }
      var isDone := host.ApplyPatch(patched.value);
      if !isDone {
        var outcome := host.Show(Shown(staged.value));
        if IsShown(outcome) {
          isOverwritten := false;
        } else {
          RestoreStoredScreens();
        }
        return Unknown;
      }
      staged := patched;
      stagedSizeBound := patchedSizeBound;
      session := session.(rev := rev);
      error := NoError;
    }

    method FinishPatch(token: nat, now: nat)
      requires IsSafe() && phase == PatchOver
      modifies this`patched, this`session, this`phase
      ensures KeepsRevision(old(session), session)
      ensures IsSafe() && phase == Idle && session.token == old(session.token) && !session.isApplying
    {
      patched := None;
      session := session.(isApplying := false);
      var (touched, _) := Touched(session, token, now);
      session := touched;
      phase := Idle;
    }

    /** The queue took no job: the request is answered with an error, and nothing was done. */
    method LoseJob()
      requires IsSafe() && phase != Idle && phase != StageOver && phase != PatchOver
      modifies this`phase
      ensures IsSafe() && (phase == StageOver || phase == PatchOver)
    {
      phase := if phase == Received || phase == Parsed then StageOver else PatchOver;
    }

    // The ends, on the render queue.

    /** Ends the session, unless it is applying. What replaced the stored screens goes, but not for a store. */
    method EndSession(isRevert: bool) returns (isReverted: Option<bool>)
      requires IsSafe()
      modifies this`session, this`staged, this`stagedSizeBound, this`pendingEnd, host`screens
      modifies this`isRefused, this`isLeft
      ensures KeepsRevision(old(session), session)
      ensures IsSafe()
      ensures isReverted.None? <==> old(session).isApplying
      ensures old(session).isApplying ==> session == old(session) && staged == old(staged)
      ensures old(session).isApplying ==>
                host.screens == old(host.screens) && pendingEnd == old(pendingEnd) && isLeft == old(isLeft)
      ensures isReverted.Some? ==>
                && !IsActive(session) && staged == None && pendingEnd == {}
                && (isReverted.value <==> isRevert && old(session).hasApplied)
                && (isReverted.value ==> host.screens == StoredShown || isRefused)
                && (!isReverted.value ==> host.screens == old(host.screens))
      // Screens are left exactly by an end for a store whose rebuild is over, after something was shown once more.
      ensures isReverted.Some? && !old(isLeft) ==>
                (isLeft <==>
                  !isRevert && old(session).hasApplied && host.screens != StoredShown && !host.isRebuildQueued)
    {
      if session.isApplying {
        return None;
      }
      var hadReplaced := session.hasApplied;
      session := Closed();
      pendingEnd := {};
      staged := None;
      stagedSizeBound := 0;
      if isRevert && hadReplaced {
        RestoreStoredScreens();
      }
      isLeft := isLeft || (!isRevert && hadReplaced && host.screens != StoredShown && !host.isRebuildQueued);
      isReverted := Some(isRevert && hadReplaced);
    }

    method ExecuteEnd(token: nat, now: nat) returns (error: Error)
      requires IsSafe()
      modifies this`session, this`staged, this`stagedSizeBound, this`pendingEnd, host`screens
      modifies this`isRefused, this`isLeft
      ensures KeepsRevision(old(session), session)
      ensures IsSafe() && (isLeft ==> old(isLeft)) && pendingEnd <= old(pendingEnd)
      ensures old(session).isApplying ==> session.token == old(session).token && error != NoError
      ensures error == NoError ==> !IsActive(session) && AreAccountedFor()
      ensures error == NoError <==> old(IsActive(session)) && token == old(session).token && !old(session).isApplying
    {
      var (touched, known) := Touched(session, token, now);
      session, error := touched, known;
      if error != NoError {
        return;
      }
      var isReverted := EndSession(true);
      error := if isReverted.None? then Busy else NoError;
    }

    /** Ends a session whose lease ran out, but never one that is applying; returns when to look again. */
    method ProcessLease(now: nat) returns (isRescheduled: bool)
      requires IsSafe()
      modifies this`session, this`staged, this`stagedSizeBound, this`pendingEnd, host`screens
      modifies this`isRefused, this`isLeft
      ensures KeepsRevision(old(session), session)
      ensures IsSafe() && (isLeft ==> old(isLeft)) && pendingEnd <= old(pendingEnd)
      ensures old(session).isApplying ==> session == old(session) && host.screens == old(host.screens)
      ensures isRescheduled ==> IsActive(session) && session == old(session)
      ensures !isRescheduled ==> !IsActive(session) && AreAccountedFor()
      ensures isRescheduled <==>
                old(IsActive(session)) && (now < old(session).lastActivity + leaseMs || old(session).isApplying)
    {
      if !IsActive(session) {
        return false;
      }
      if now >= session.lastActivity + leaseMs && !session.isApplying {
        var isReverted := EndSession(true);
        return false;
      }
      isRescheduled := true;
    }

    /** Ends a session whose link dropped, or during which a configuration was stored, once it is not applying. */
    method ProcessEnd() returns (isRescheduled: bool)
      requires IsSafe()
      modifies this`session, this`staged, this`stagedSizeBound, this`pendingEnd, host`screens
      modifies this`isRefused, this`isLeft
      ensures KeepsRevision(old(session), session)
      ensures IsSafe() && pendingEnd <= old(pendingEnd)
      ensures old(session).isApplying ==> session == old(session) && host.screens == old(host.screens)
      ensures old(session).isApplying ==> pendingEnd == old(pendingEnd)
      ensures isRescheduled <==> old(session).isApplying
      ensures old(pendingEnd) != {} && !old(session).isApplying ==>
                !IsActive(session) && pendingEnd == {} && AreAccountedFor()
      // The link's end shows the stored screens again; a store's leaves that to its rebuild.
      ensures old(pendingEnd) == {LinkDropped} && !old(session).isApplying && old(IsActive(session)) ==>
                host.screens == StoredShown || isRefused || !old(session).hasApplied
      ensures ConfigurationStored in old(pendingEnd) ==> host.screens == old(host.screens)
      ensures !old(isLeft) ==>
                (isLeft <==>
                  && ConfigurationStored in old(pendingEnd) && old(IsActive(session)) && !old(session).isApplying
                  && old(session).hasApplied && host.screens != StoredShown && !host.isRebuildQueued)
    {
      if !IsActive(session) {
        pendingEnd := {};
        return false;
      }
      if session.isApplying {
        return true;
      }
      if pendingEnd == {} {
        return false;
      }
      var isReverted := EndSession(ConfigurationStored !in pendingEnd);
      isRescheduled := false;
    }

    method OnLinkDropped()
      modifies this`pendingEnd
      ensures pendingEnd == old(pendingEnd) + if IsActive(session) then {LinkDropped} else {}
    {
      if IsActive(session) {
        pendingEnd := pendingEnd + {LinkDropped};
      }
    }

    /** A store ends the session, and its rebuild of the screens is queued. */
    method OnConfigurationStored()
      requires IsSafe()
      modifies this`pendingEnd, host`isRebuildQueued
      ensures IsSafe() && host.isRebuildQueued
      ensures pendingEnd == old(pendingEnd) + if IsActive(session) then {ConfigurationStored} else {}
    {
      if IsActive(session) {
        pendingEnd := pendingEnd + {ConfigurationStored};
      }
      host.isRebuildQueued := true;
    }

    /** The rebuild shows what is stored, whatever is shown. */
    method RunRebuild() returns (outcome: Outcome)
      requires IsSafe() && host.isRebuildQueued
      modifies host, this`isRefused, this`isLeft, this`isOverwritten
      ensures IsSafe() && !host.isRebuildQueued
      ensures host.screens == if IsShown(outcome) then StoredShown else Partial
      ensures isOverwritten == (old(isOverwritten) || staged.Some?)
      ensures isLeft == (old(isLeft) && !IsShown(outcome))
    {
      host.isRebuildQueued := false;
      outcome := host.Show(StoredShown);
      isOverwritten := isOverwritten || staged.Some?;
      isLeft := isLeft && !IsShown(outcome);
      isRefused := !IsShown(outcome) && (isRefused || !IsActive(session) || !session.hasApplied);
    }

    /**
     * A store while a stage is applied can leave its screens for good: the rebuild runs before what was staged is
     * shown, and the end, which had to wait, leaves the screens to the rebuild.
     */
    method StoreLeavesStage(token: nat, now: nat) returns (rebuilt: Outcome, error: Error)
      requires IsSafe() && phase == Parsed
      modifies this, host
      ensures IsSafe()
      ensures IsShown(rebuilt) && error == NoError ==>
                !IsActive(session) && host.screens == Shown(old(parsed).value) && isLeft && !host.isRebuildQueued
    {
      OnConfigurationStored();
      rebuilt := RunRebuild();
      var isRescheduled := ProcessEnd();
      error := ExecuteApply();
      FinishStage(token, now);
      isRescheduled := ProcessEnd();
    }

    /** The next step of the request that is being applied. */
    method Continue(token: nat, now: nat)
      requires IsSafe() && phase != Idle
      modifies this, host
      ensures KeepsRevision(old(session), session)
      ensures IsSafe() && session.token == old(session).token
      ensures host.isRebuildQueued == old(host.isRebuildQueued) && pendingEnd == old(pendingEnd)
      ensures (isOverwritten ==> old(isOverwritten)) && (isLeft ==> old(isLeft))
    {
      var isLost: bool := *;
      if phase == StageOver {
        FinishStage(token, now);
      } else if phase == PatchOver {
        FinishPatch(token, now);
      } else if isLost {
        LoseJob();
      } else if phase == Received {
        var error := ExecuteParse();
      } else if phase == Parsed {
        var error := ExecuteApply();
      } else if phase.PatchOpen? {
        var error := ExecutePatchPrepare();
      } else {
        var error := ExecutePatchApply();
      }
    }

    /** A request of a client. */
    method Request(token: nat, isPinned: bool, newToken: nat, c: Chunk, rev: nat, ops: Ops, now: nat)
      requires IsSafe() && phase == Idle && newToken != 0
      modifies this, host
      ensures KeepsRevision(old(session), session)
      ensures IsSafe()
      ensures host.isRebuildQueued == old(host.isRebuildQueued) && pendingEnd <= old(pendingEnd)
      ensures isOverwritten == old(isOverwritten) && (isLeft ==> old(isLeft))
    {
      var known: bool, isWithinLimits: bool := *, *;
      if * {
        var error := ExecuteBegin(if known then Some(token) else None, isPinned, newToken, now);
      } else if * {
        var error := TakeChunk(token, c, now);
      } else if * {
        var error := BeginPatch(token, rev, ops, isWithinLimits, now);
      } else {
        var error := ExecuteEnd(token, now);
      }
    }

    /** No store is pending, nor its rebuild. */
    ghost predicate HasNoStore()
      reads this, host
    {
      !host.isRebuildQueued && ConfigurationStored !in pendingEnd
    }

    /** No step of any kind ends a session that is applying. Without stores, and their rebuilds, nothing is left. */
    method Step(hasStores: bool)
      requires IsSafe()
      modifies this, host
      ensures KeepsRevision(old(session), session)
      ensures IsSafe()
      ensures old(session).isApplying ==> IsActive(session) && session.token == old(session).token
      ensures !hasStores && old(HasNoStore()) ==>
                HasNoStore() && (isOverwritten ==> old(isOverwritten)) && (isLeft ==> old(isLeft))
    {
      var token: nat, isPinned: bool, newToken: nat, rev: nat, now: nat := *, *, *, *, *;
      var c: Chunk, ops: Ops, isStored: bool, isRebuilt: bool := *, *, *, *;
      if * {
        var isRescheduled := ProcessLease(now);
      } else if * {
        var isRescheduled := ProcessEnd();
      } else if * {
        OnLinkDropped();
      } else if hasStores && isStored {
        OnConfigurationStored();
      } else if host.isRebuildQueued && isRebuilt {
        var outcome := RunRebuild();
      } else if phase == Idle {
        Request(token, isPinned, if newToken == 0 then 1 else newToken, c, rev, ops, now);
      } else {
        Continue(token, now);
      }
    }

    /**
     * Any requests, cut anywhere by the lease, the ends, dropped links and stores, with a host that fails as it likes;
     * `sessions` are those before and after each step. Without stores what is staged is shown, and screens that are not
     * the stored ones belong to a session or were refused.
     */
    method Run(steps: nat, hasStores: bool) returns (ghost sessions: seq<Session>)
      requires IsSafe()
      modifies this, host
      ensures IsSafe()
      ensures |sessions| == steps + 1 && sessions[0] == old(session) && sessions[steps] == session
      ensures forall n :: 0 <= n < steps && sessions[n].isApplying ==> sessions[n + 1].token == sessions[n].token
      ensures forall n :: 0 <= n < steps ==> KeepsRevision(sessions[n], sessions[n + 1])
      ensures !IsActive(session) ==> AreAccountedFor()
      ensures !hasStores && old(HasNoStore() && !isOverwritten && !isLeft) ==>
                && (staged.Some? ==> host.screens == Shown(staged.value))
                && (!IsActive(session) ==> host.screens == StoredShown || isRefused)
    {
      sessions := [session];
      var n := 0;
      while n < steps
        invariant n <= steps && IsSafe()
        invariant |sessions| == n + 1 && sessions[0] == old(session) && sessions[n] == session
        invariant forall k :: 0 <= k < n && sessions[k].isApplying ==> sessions[k + 1].token == sessions[k].token
        invariant forall k :: 0 <= k < n ==> KeepsRevision(sessions[k], sessions[k + 1])
        invariant !hasStores && old(HasNoStore() && !isOverwritten && !isLeft) ==>
                    HasNoStore() && !isOverwritten && !isLeft
      {
        Step(hasStores);
        sessions := sessions + [session];
        n := n + 1;
      }
    }
  }
}
