/** The client registry as values: the record, the outcome an operation
    reports, and the three store operations of `ClientManager` written as
    functions on the ordered sequence of records, with what they preserve. */
module ClientRecords {

  datatype Option<+T> = None | Some(value: T)

  /** One entry of the registry; `id` is the number shown as CEDULA. */
  datatype Client = Client(id: int, name: string, email: string, phone: string, active: bool)

  /** What update and deactivate report: the success alert, or "Cliente no encontrado". */
  datatype Outcome = Success | NotFound

  /** The records after an operation, and what the operation reported. */
  datatype StoreResult = StoreResult(clients: seq<Client>, outcome: Outcome)

  /** A submitted form, as the operation it asks for. The id is the value of
      `parseInt` on the id field: `None` stands for NaN, which equals no id. */
  datatype Request =
    | RegisterRequest(name: string, email: string, phone: string)
    | UpdateRequest(clientId: Option<int>, name: string, email: string, phone: string)
    | DeactivateRequest(clientId: Option<int>)

  /** `client.id === clientId`. */
  predicate Matches(c: Client, clientId: Option<int>)
  {
    clientId.Some? && c.id == clientId.value
  }

  /** The store invariant: the record at position i has id i + 1. */
  predicate WellNumbered(cs: seq<Client>)
  {
    forall i :: 0 <= i < |cs| ==> cs[i].id == i + 1
  }

  predicate IdsUnique(cs: seq<Client>)
  {
    forall i, j :: 0 <= i < |cs| && 0 <= j < |cs| && i != j ==> cs[i].id != cs[j].id
  }

  /** Two stores that hold the same ids at the same positions. */
  predicate SameIds(a: seq<Client>, b: seq<Client>)
  {
    |a| == |b| && forall i :: 0 <= i < |a| ==> a[i].id == b[i].id
  }

  /** `findIndex`: the first position whose record matches, or -1. */
  function IndexOf(cs: seq<Client>, clientId: Option<int>): (r: int)
    ensures -1 <= r < |cs|
    ensures r == -1 <==> forall j :: 0 <= j < |cs| ==> !Matches(cs[j], clientId)
    ensures 0 <= r ==> Matches(cs[r], clientId)
    ensures 0 <= r ==> forall j :: 0 <= j < r ==> !Matches(cs[j], clientId)
  {
    if |cs| == 0 then -1
    else if Matches(cs[0], clientId) then 0
    else
      var k := IndexOf(cs[1..], clientId);
      assert forall j :: 1 <= j < |cs| ==> cs[j] == cs[1..][j - 1];
      if k == -1 then -1 else k + 1
  }

  /** registerClient: append a record numbered one past the current length, active. */
  function Register(cs: seq<Client>, name: string, email: string, phone: string): (r: seq<Client>)
    ensures |r| == |cs| + 1
    ensures r[..|cs|] == cs
    ensures r[|cs|] == Client(|cs| + 1, name, email, phone, true)
  {
    cs + [Client(|cs| + 1, name, email, phone, true)]
  }

  /** `if (value) field = value`: a non-empty value replaces the field, an empty one keeps it. */
  function Override(current: string, given: string): string
  {
    if given != "" then given else current
  }

  function Merge(c: Client, name: string, email: string, phone: string): Client
  {
    c.(name := Override(c.name, name), email := Override(c.email, email), phone := Override(c.phone, phone))
  }

  /** updateClient: merge the given fields into the first matching record. */
  function Update(cs: seq<Client>, clientId: Option<int>, name: string, email: string, phone: string): (r: StoreResult)
    ensures |r.clients| == |cs|
    ensures r.outcome == NotFound <==> forall j :: 0 <= j < |cs| ==> !Matches(cs[j], clientId)
    ensures r.outcome == NotFound ==> r.clients == cs
    ensures r.outcome == Success ==>
      var i := IndexOf(cs, clientId);
      && r.clients[i] == Merge(cs[i], name, email, phone)
      && forall j :: 0 <= j < |cs| && j != i ==> r.clients[j] == cs[j]
  {
    var i := IndexOf(cs, clientId);
    if i == -1 then StoreResult(cs, NotFound)
    else StoreResult(cs[i := Merge(cs[i], name, email, phone)], Success)
  }

  /** deactivateClient: clear the active flag of the first matching record. */
  function Deactivate(cs: seq<Client>, clientId: Option<int>): (r: StoreResult)
    ensures |r.clients| == |cs|
    ensures r.outcome == NotFound <==> forall j :: 0 <= j < |cs| ==> !Matches(cs[j], clientId)
    ensures r.outcome == NotFound ==> r.clients == cs
    ensures r.outcome == Success ==>
      var i := IndexOf(cs, clientId);
      && r.clients[i] == cs[i].(active := false)
      && forall j :: 0 <= j < |cs| && j != i ==> r.clients[j] == cs[j]
  {
    var i := IndexOf(cs, clientId);
    if i == -1 then StoreResult(cs, NotFound)
    else StoreResult(cs[i := cs[i].(active := false)], Success)
  }

  /** One submitted form applied to the store; registration always succeeds. */
  function Apply(cs: seq<Client>, req: Request): (r: StoreResult)
    ensures req.RegisterRequest? ==> r.outcome == Success && |r.clients| == |cs| + 1
    ensures !req.RegisterRequest? ==> |r.clients| == |cs|
    ensures r.outcome == NotFound ==> r.clients == cs
  {
    match req
    case RegisterRequest(name, email, phone) => StoreResult(Register(cs, name, email, phone), Success)
    case UpdateRequest(clientId, name, email, phone) => Update(cs, clientId, name, email, phone)
    case DeactivateRequest(clientId) => Deactivate(cs, clientId)
  }

  /** A session: the submitted forms applied in order. */
  function ApplyAll(cs: seq<Client>, reqs: seq<Request>): seq<Client>
    decreases |reqs|
  {
    if reqs == [] then cs else ApplyAll(Apply(cs, reqs[0]).clients, reqs[1..])
  }

  /** The records a run of registrations produces: ids continue from the store's length. */
  function RegisterAll(cs: seq<Client>, regs: seq<(string, string, string)>): seq<Client>
    decreases |regs|
  {
    if regs == [] then cs else RegisterAll(Register(cs, regs[0].0, regs[0].1, regs[0].2), regs[1..])
  }

  // ---------------------------------------------------------------------------
  // Numbering: ids are 1..n in insertion order, hence unique

  lemma WellNumberedIdsUnique(cs: seq<Client>)
    requires WellNumbered(cs)
    ensures IdsUnique(cs)
  {
  }

  /** In a well-numbered store, id k is found at position k - 1 exactly when 1 <= k <= n. */
  lemma WellNumberedIndexOf(cs: seq<Client>, k: int)
    requires WellNumbered(cs)
    ensures IndexOf(cs, Some(k)) == if 1 <= k <= |cs| then k - 1 else -1
  {
    if 1 <= k <= |cs| {
      assert Matches(cs[k - 1], Some(k));
    }
  }

  /** An unparsable id (NaN) is found nowhere. */
  lemma NaNIsNeverFound(cs: seq<Client>, name: string, email: string, phone: string)
    ensures IndexOf(cs, None) == -1
    ensures Update(cs, None, name, email, phone) == StoreResult(cs, NotFound)
    ensures Deactivate(cs, None) == StoreResult(cs, NotFound)
  {
  }

  lemma ApplyPreservesNumbering(cs: seq<Client>, req: Request)
    requires WellNumbered(cs)
    ensures WellNumbered(Apply(cs, req).clients)
  {
    var r := Apply(cs, req).clients;
    if req.RegisterRequest? {
      forall i | 0 <= i < |r| ensures r[i].id == i + 1 {
        if i < |cs| { assert r[i] == r[..|cs|][i]; }
      }
    }
  }

  lemma {:induction false} ApplyAllPreservesNumbering(cs: seq<Client>, reqs: seq<Request>)
    requires WellNumbered(cs)
    ensures WellNumbered(ApplyAll(cs, reqs))
    decreases |reqs|
  {
    if reqs != [] {
      ApplyPreservesNumbering(cs, reqs[0]);
      ApplyAllPreservesNumbering(Apply(cs, reqs[0]).clients, reqs[1..]);
    }
  }

  /** Whatever forms a session submits, starting from the empty store the ids stay 1..n and unique. */
  lemma SessionIdsUnique(reqs: seq<Request>)
    ensures WellNumbered(ApplyAll([], reqs))
    ensures IdsUnique(ApplyAll([], reqs))
  {
    ApplyAllPreservesNumbering([], reqs);
    WellNumberedIdsUnique(ApplyAll([], reqs));
  }

  /** Registrations append one active record each, numbered on from the store's length. */
  lemma {:induction false} RegisterAllAppends(cs: seq<Client>, regs: seq<(string, string, string)>)
    ensures |RegisterAll(cs, regs)| == |cs| + |regs|
    ensures RegisterAll(cs, regs)[..|cs|] == cs
    ensures forall k :: 0 <= k < |regs| ==>
      RegisterAll(cs, regs)[|cs| + k] == Client(|cs| + k + 1, regs[k].0, regs[k].1, regs[k].2, true)
    decreases |regs|
  {
    if regs != [] {
      var next := Register(cs, regs[0].0, regs[0].1, regs[0].2);
      RegisterAllAppends(next, regs[1..]);
      var r := RegisterAll(cs, regs);
      assert r == RegisterAll(next, regs[1..]);
      assert r[..|cs|] == next[..|next|][..|cs|];
      forall k | 0 <= k < |regs|
        ensures r[|cs| + k] == Client(|cs| + k + 1, regs[k].0, regs[k].1, regs[k].2, true)
      {
        if k == 0 {
          assert r[|cs|] == r[..|next|][|cs|];
        } else {
          assert r[|next| + (k - 1)] == Client(|next| + (k - 1) + 1, regs[1..][k - 1].0, regs[1..][k - 1].1, regs[1..][k - 1].2, true);
        }
      }
    }
  }

  /** N registrations on the empty store give ids 1..N, in order, all active. */
  lemma RegisterFromEmpty(regs: seq<(string, string, string)>)
    ensures |RegisterAll([], regs)| == |regs|
    ensures forall k :: 0 <= k < |regs| ==>
      RegisterAll([], regs)[k] == Client(k + 1, regs[k].0, regs[k].1, regs[k].2, true)
  {
    RegisterAllAppends([], regs);
  }

  // ---------------------------------------------------------------------------
  // Update

  /** On a found record, each of name, email and phone is replaced exactly when
      the given value is non-empty; id and active never change. */
  lemma UpdateFields(cs: seq<Client>, clientId: Option<int>, name: string, email: string, phone: string)
    requires Update(cs, clientId, name, email, phone).outcome == Success
    ensures var i := IndexOf(cs, clientId);
      var c := Update(cs, clientId, name, email, phone).clients[i];
      && c.id == cs[i].id && c.active == cs[i].active
      && c.name == (if name == "" then cs[i].name else name)
      && c.email == (if email == "" then cs[i].email else email)
      && c.phone == (if phone == "" then cs[i].phone else phone)
  {
  }

  /** Updating with every field empty reports success or not-found but changes nothing. */
  lemma UpdateWithNothingChangesNothing(cs: seq<Client>, clientId: Option<int>)
    ensures Update(cs, clientId, "", "", "").clients == cs
  {
    var r := Update(cs, clientId, "", "", "");
    if r.outcome == Success {
      var i := IndexOf(cs, clientId);
      assert r.clients[i] == cs[i];
      assert forall j :: 0 <= j < |cs| ==> r.clients[j] == cs[j];
    }
  }

  /** Lookup and its outcome depend only on the ids at each position. */
  lemma {:induction false} IndexOfSameIds(a: seq<Client>, b: seq<Client>, clientId: Option<int>)
    requires SameIds(a, b)
    ensures IndexOf(a, clientId) == IndexOf(b, clientId)
    decreases |a|
  {
    if |a| > 0 && !Matches(a[0], clientId) {
      IndexOfSameIds(a[1..], b[1..], clientId);
    }
  }

  lemma ApplyKeepsIds(cs: seq<Client>, req: Request)
    ensures |cs| <= |Apply(cs, req).clients|
    ensures SameIds(cs, Apply(cs, req).clients[..|cs|])
  {
    var r := Apply(cs, req).clients;
    if req.RegisterRequest? {
      assert r[..|cs|] == cs;
    }
  }

  /** Repeating the same update gives the same store and the same outcome. */
  lemma UpdateIdempotent(cs: seq<Client>, clientId: Option<int>, name: string, email: string, phone: string)
    ensures var r := Update(cs, clientId, name, email, phone);
      Update(r.clients, clientId, name, email, phone) == r
  {
    var r := Update(cs, clientId, name, email, phone);
    IndexOfSameIds(cs, r.clients, clientId);
    var rr := Update(r.clients, clientId, name, email, phone);
    if r.outcome == Success {
      var i := IndexOf(cs, clientId);
      assert rr.clients[i] == r.clients[i];
      assert rr.clients == r.clients;
    }
  }

  // ---------------------------------------------------------------------------
  // Deactivate

  /** Repeating a deactivation gives the same store and still reports success. */
  lemma DeactivateIdempotent(cs: seq<Client>, clientId: Option<int>)
    ensures var r := Deactivate(cs, clientId);
      Deactivate(r.clients, clientId) == r
  {
    var r := Deactivate(cs, clientId);
    IndexOfSameIds(cs, r.clients, clientId);
    var rr := Deactivate(r.clients, clientId);
    if r.outcome == Success {
      assert rr.clients == r.clients;
    }
  }

  /** After a successful deactivation the matched record is inactive. */
  lemma DeactivateClearsActive(cs: seq<Client>, clientId: Option<int>)
    requires Deactivate(cs, clientId).outcome == Success
    ensures var i := IndexOf(cs, clientId);
      var c := Deactivate(cs, clientId).clients[i];
      && !c.active && c.id == cs[i].id && c.name == cs[i].name
      && c.email == cs[i].email && c.phone == cs[i].phone
  {
  }

  /** No submitted form sets active back to true. */
  lemma ApplyNeverReactivates(cs: seq<Client>, req: Request, i: int)
    requires 0 <= i < |cs| && !cs[i].active
    ensures i < |Apply(cs, req).clients| && !Apply(cs, req).clients[i].active
  {
    var r := Apply(cs, req).clients;
    if req.RegisterRequest? {
      assert r[i] == r[..|cs|][i];
    }
  }

  /** Over a whole session: no record is removed, and an inactive record stays inactive. */
  lemma {:induction false} ApplyAllNeverReactivates(cs: seq<Client>, reqs: seq<Request>, i: int)
    requires 0 <= i < |cs| && !cs[i].active
    ensures i < |ApplyAll(cs, reqs)| && !ApplyAll(cs, reqs)[i].active
    decreases |reqs|
  {
    if reqs != [] {
      ApplyNeverReactivates(cs, reqs[0], i);
      ApplyAllNeverReactivates(Apply(cs, reqs[0]).clients, reqs[1..], i);
    }
  }
}
