/** `ClientManager`'s in-memory store: the array `this.clients`, changed in
    place by the three form handlers. Each method is proved against the
    functions of ClientRecords, whose properties are proved there. */
module ClientStore {
  import opened ClientRecords

  class ClientManager {
    var clients: seq<Client>

    /** The store invariant: ids are 1..n in insertion order. */
    ghost predicate Valid()
      reads this
    {
      WellNumbered(clients)
    }

    constructor ()
      ensures Valid() && clients == []
    {
      clients := [];
    }

    /** `this.clients.findIndex(client => client.id === clientId)`. */
    method FindIndex(clientId: Option<int>) returns (index: int)
      ensures -1 <= index < |clients|
      ensures 0 <= index ==> Matches(clients[index], clientId)
      ensures forall j :: 0 <= j < |clients| && (index == -1 || j < index) ==> !Matches(clients[j], clientId)
      ensures index == IndexOf(clients, clientId)
    {
      var i := 0;
      while i < |clients|
        invariant 0 <= i <= |clients|
        invariant forall j :: 0 <= j < i ==> !Matches(clients[j], clientId)
      {
        if Matches(clients[i], clientId) {
          return i;
        }
        i := i + 1;
      }
      return -1;
    }

    /** registerClient: push a new active record numbered one past the length. */
    method RegisterClient(name: string, email: string, phone: string) returns (outcome: Outcome)
      requires Valid()
      modifies this
      ensures Valid()
      ensures clients == Register(old(clients), name, email, phone)
      ensures outcome == Success
    {
      var newClient := Client(|clients| + 1, name, email, phone, true);
      clients := clients + [newClient];
      ApplyPreservesNumbering(old(clients), RegisterRequest(name, email, phone));
      outcome := Success;
    }

    /** updateClient: on a found id overwrite each non-empty field; otherwise report not found. */
    method UpdateClient(clientId: Option<int>, name: string, email: string, phone: string) returns (outcome: Outcome)
      requires Valid()
      modifies this
      ensures Valid()
      ensures StoreResult(clients, outcome) == Update(old(clients), clientId, name, email, phone)
    {
      var clientIndex := FindIndex(clientId);
      if clientIndex == -1 {
        return NotFound;
      }
      if name != "" { clients := clients[clientIndex := clients[clientIndex].(name := name)]; }
      if email != "" { clients := clients[clientIndex := clients[clientIndex].(email := email)]; }
      if phone != "" { clients := clients[clientIndex := clients[clientIndex].(phone := phone)]; }
      ApplyPreservesNumbering(old(clients), UpdateRequest(clientId, name, email, phone));
      outcome := Success;
    }

    /** deactivateClient: on a found id clear the active flag; otherwise report not found. */
    method DeactivateClient(clientId: Option<int>) returns (outcome: Outcome)
      requires Valid()
      modifies this
      ensures Valid()
      ensures StoreResult(clients, outcome) == Deactivate(old(clients), clientId)
    {
      var clientIndex := FindIndex(clientId);
      if clientIndex == -1 {
        return NotFound;
      }
      clients := clients[clientIndex := clients[clientIndex].(active := false)];
      ApplyPreservesNumbering(old(clients), DeactivateRequest(clientId));
      outcome := Success;
    }
  }
}
