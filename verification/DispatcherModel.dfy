/** The auth-update pipeline as values: the watcher diffs snapshots into updates, coalesces them per
    id, drains them to a queue, and the service applies them in order to its auth manager. */
module DispatcherModel {
  import opened Collections
  import Text

  /** A credential record. Everything that neither the diff nor the manager treats specially is in
      `details`. */
  datatype Auth = Auth(
    id: string,
    disabled: bool,
    status: string,
    details: string,
    createdAt: int,
    updatedAt: int,
    lastRefreshedAt: int,
    nextRefreshAfter: int,
    nextRecoverAt: int,
    runtime: int)

  datatype Action = Add | Modify | Delete | Unknown(name: string)

  datatype Update = Update(action: Action, id: string, auth: Option<Auth>)

  type Auths = map<string, Auth>

  /** The projection under which records are compared: volatile fields are zeroed. */
  function Normalize(a: Auth): Auth {
    a.(createdAt := 0, updatedAt := 0, lastRefreshedAt := 0, nextRefreshAfter := 0, runtime := 0, nextRecoverAt := 0)
  }

  predicate AuthEqual(a: Auth, b: Auth) {
    Normalize(a) == Normalize(b)
  }

  /** The discipline of the callers: an id, and for additions and changes the record of that id. */
  predicate WellFormed(u: Update) {
    && u.id != ""
    && !u.action.Unknown?
    && (u.action.Delete? || (u.auth.Some? && u.auth.value.id == u.id))
  }

  /** The record an update asks for; None asks for its removal. */
  function Wanted(u: Update): Option<Auth> {
    if u.action.Delete? then None else u.auth
  }

  // ---------------------------------------------------------------------------------------
  // The consumer
  // ---------------------------------------------------------------------------------------

  /** Adding or changing keeps the refresh history of an existing record. */
  function Admit(e: Option<Auth>, a: Auth): Auth {
    match e
    case None => a
    case Some(x) => a.(createdAt := x.createdAt, lastRefreshedAt := x.lastRefreshedAt,
                       nextRefreshAfter := x.nextRefreshAfter)
  }

  function Retire(a: Auth): Auth {
    a.(disabled := true, status := "disabled")
  }

  function TargetOf(u: Update): string {
    match u.action
    case Delete => if u.id == "" && u.auth.Some? then u.auth.value.id else u.id
    case Unknown(_) => ""
    case _ => if u.auth.Some? then u.auth.value.id else ""
  }

  /** The manager's records after one update; removal only disables the record. */
  function Handle(m: Auths, u: Update): Auths {
    var id := TargetOf(u);
    if id == "" then m
    else if !u.action.Delete? then m[id := Admit(Look(m, id), u.auth.value)]
    else if id in m then m[id := Retire(m[id])]
    else m
  }

  function HandleAll(m: Auths, us: seq<Update>): Auths
    decreases us
  {
    if us == [] then m else HandleAll(Handle(m, us[0]), us[1..])
  }

  /** A manager entry meets the wanted record up to the projection; an unwanted one is absent or disabled. */
  predicate Meets(e: Option<Auth>, want: Option<Auth>) {
    match want
    case Some(a) => e.Some? && AuthEqual(e.value, a)
    case None => e.Some? ==> e.value.disabled
  }

  // ---------------------------------------------------------------------------------------
  // The watcher
  // ---------------------------------------------------------------------------------------

  datatype State = State(
    current: Option<Auths>,
    runtime: Auths,
    pending: map<string, Update>,
    order: seq<string>,
    inFlight: seq<Update>,
    queue: seq<Update>,
    manager: Auths)

  const Capacity: nat := 256

  const Start := State(None, map[], map[], [], [], [], map[])

  function Known(current: Option<Auths>): Auths {
    if current.Some? then current.value else map[]
  }

  /** The records of a snapshot by id; later entries win. */
  function ByID(auths: seq<Option<Auth>>): (m: Auths)
    ensures "" !in m
    ensures forall id :: id in m ==> m[id].id == id
  {
    if auths == [] then map[]
    else
      var rest := ByID(auths[..|auths| - 1]);
      var a := auths[|auths| - 1];
      if a.Some? && a.value.id != "" then rest[a.value.id := a.value] else rest
  }

  /** The one update a refresh owes an id, if any. */
  function Owed(before: Auths, after: Auths, force: bool, id: string): Option<Update> {
    if id in after then
      if id !in before then Some(Update(Add, id, Some(after[id])))
      else if force || !AuthEqual(before[id], after[id]) then Some(Update(Modify, id, Some(after[id])))
      else None
    else if id in before then Some(Update(Delete, id, None))
    else None
  }

  /** The updates are exactly the owed ones, each once, in any order. */
  ghost predicate Diff(us: seq<Update>, before: Auths, after: Auths, force: bool) {
    && (forall i :: 0 <= i < |us| ==> Owed(before, after, force, us[i].id) == Some(us[i]))
    && (forall id :: Owed(before, after, force, id).Some? ==> Owed(before, after, force, id).value in us)
    && (forall i, j :: 0 <= i < j < |us| ==> us[i].id != us[j].id)
  }

  /** Coalescing: an id already pending keeps its place and takes the newer update. */
  function Enqueue(s: State, key: string, u: Update): State {
    s.(order := if key in s.pending then s.order else s.order + [key], pending := s.pending[key := u])
  }

  function ActionName(a: Action): string {
    match a
    case Add => "add"
    case Modify => "modify"
    case Delete => "delete"
    case Unknown(name) => name
  }

  /** The key under which an update waits; without an id it gets one of its own from the clock. */
  function KeyOf(u: Update, stamp: int): string {
    if u.id != "" then u.id else ActionName(u.action) + ":" + Text.Decimal(stamp)
  }

  function EnqueueAll(s: State, us: seq<Update>, stamp: int): State {
    if us == [] then s
    else
      var n := |us| - 1;
      Enqueue(EnqueueAll(s, us[..n], stamp), KeyOf(us[n], stamp + n), us[n])
  }

  function PendingBatch(pending: map<string, Update>, order: seq<string>): seq<Update>
    requires forall k :: k in order ==> k in pending
  {
    seq(|order|, i requires 0 <= i < |order| => pending[order[i]])
  }

  /** The pending keys stand once in the order, each under the id of its update. */
  ghost predicate Coalesced(s: State) {
    && (forall k :: k in s.order <==> k in s.pending)
    && (forall i, j :: 0 <= i < j < |s.order| ==> s.order[i] != s.order[j])
    && (forall k :: k in s.pending ==> s.pending[k].id == k && WellFormed(s.pending[k]))
  }

  /** Everything the manager has still to see, in the order in which it will see it. */
  function Outstanding(s: State): seq<Update>
    requires forall k :: k in s.order ==> k in s.pending
  {
    s.queue + s.inFlight + PendingBatch(s.pending, s.order)
  }

  ghost predicate AllWellFormed(us: seq<Update>) {
    forall i :: 0 <= i < |us| ==> WellFormed(us[i])
  }

  /** Once the outstanding updates are applied, the manager holds what the watcher knows. */
  ghost predicate Converging(s: State)
    requires forall k :: k in s.order ==> k in s.pending
  {
    forall id :: Meets(Look(HandleAll(s.manager, Outstanding(s)), id), Look(Known(s.current), id))
  }

  ghost predicate Invariant(s: State) {
    && Coalesced(s)
    && AllWellFormed(s.queue) && AllWellFormed(s.inFlight)
    && Converging(s)
  }

  // ---------------------------------------------------------------------------------------
  // Steps
  // ---------------------------------------------------------------------------------------

  /** A refresh: snapshot and runtime records become current, the owed updates are enqueued. */
  function Refresh(s: State, snapshot: seq<Option<Auth>>, us: seq<Update>, stamp: int): State {
    EnqueueAll(s.(current := Some(ByID(snapshot) + s.runtime)), us, stamp)
  }

  function RecordRuntime(s: State, u: Update): State {
    match u.action
    case Delete =>
      var id := TargetOf(u);
      if id == "" then s
      else s.(runtime := s.runtime - {id},
              current := if s.current.Some? then Some(s.current.value - {id}) else None)
    case Unknown(_) => s
    case _ =>
      if u.auth.Some? && u.auth.value.id != "" then
        s.(runtime := s.runtime[u.auth.value.id := u.auth.value],
           current := Some(Known(s.current)[u.auth.value.id := u.auth.value]))
      else s
  }

  function Runtime(s: State, u: Update, stamp: int): State {
    Enqueue(RecordRuntime(s, u), KeyOf(u, stamp), u)
  }

  function Drain(s: State): State
    requires forall k :: k in s.order ==> k in s.pending
  {
    s.(inFlight := PendingBatch(s.pending, s.order), pending := s.pending - ElementSet(s.order), order := [])
  }

  function Deliver(s: State): State
    requires s.inFlight != []
  {
    s.(queue := s.queue + [s.inFlight[0]], inFlight := s.inFlight[1..])
  }

  function Consume(s: State): State
    requires s.queue != []
  {
    s.(manager := Handle(s.manager, s.queue[0]), queue := s.queue[1..])
  }

  /** One step of the watcher, the dispatch loop or the service. */
  ghost predicate Next(s: State, t: State) {
    || (exists snapshot, force, us, stamp ::
          Diff(us, Known(s.current), ByID(snapshot) + s.runtime, force) && t == Refresh(s, snapshot, us, stamp))
    || (exists u, stamp :: WellFormed(u) && t == Runtime(s, u, stamp))
    || Internal(s, t)
  }

  /** The steps that only move or apply updates. */
  ghost predicate Internal(s: State, t: State) {
    && (forall k :: k in s.order ==> k in s.pending)
    && (|| (s.inFlight == [] && s.order != [] && t == Drain(s))
        || (s.inFlight != [] && |s.queue| < Capacity && t == Deliver(s))
        || (s.queue != [] && t == Consume(s)))
  }
}
