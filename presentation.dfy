/** The logic around the store: the action switch of `displayContent`, the
    row and status rule of `showClientList`, and which store operation each
    form's submission asks for. The HTML itself is not modelled. */
module Presentation {
  import opened ClientRecords

  /** The four menu actions, by their `data-action` tokens, and anything else. */
  datatype Action = Registrar | Consultar | Actualizar | Desactivar | Unrecognized

  /** One table row: CEDULA, Nombre, Correo, Teléfono, Estado. */
  datatype Row = Row(id: int, name: string, email: string, phone: string, status: string)

  /** What the client list shows: the "No hay clientes registrados." message, or the table. */
  datatype ListView = NoClients | Table(rows: seq<Row>)

  /** What `displayContent` puts on screen. */
  datatype Screen =
    | RegistrationForm
    | ClientList(view: ListView)
    | UpdateForm
    | DeactivationForm
    | InvalidOption

  /** The values a submitted form carries, already read from its inputs. */
  datatype FormInput = FormInput(clientId: Option<int>, name: string, email: string, phone: string)

  function ParseAction(token: string): (a: Action)
    ensures a == Registrar <==> token == "registrar"
    ensures a == Consultar <==> token == "consultar"
    ensures a == Actualizar <==> token == "actualizar"
    ensures a == Desactivar <==> token == "desactivar"
  {
    if token == "registrar" then Registrar
    else if token == "consultar" then Consultar
    else if token == "actualizar" then Actualizar
    else if token == "desactivar" then Desactivar
    else Unrecognized
  }

  function StatusLabel(active: bool): (s: string)
    ensures s == "Activo" <==> active
    ensures s == "Inactivo" <==> !active
  {
    if active then "Activo" else "Inactivo"
  }

  function RowOf(c: Client): Row
  {
    Row(c.id, c.name, c.email, c.phone, StatusLabel(c.active))
  }

  /** `this.clients.map(...)`: one row per record, in order. */
  function Rows(cs: seq<Client>): (rows: seq<Row>)
    ensures |rows| == |cs|
    ensures forall i :: 0 <= i < |cs| ==> rows[i] == RowOf(cs[i])
  {
    if cs == [] then [] else [RowOf(cs[0])] + Rows(cs[1..])
  }

  /** showClientList: the empty-state message exactly when there are no records;
      otherwise one row per record, in order, labelled Activo exactly when active. */
  function ShowClientList(cs: seq<Client>): (v: ListView)
    ensures v == NoClients <==> |cs| == 0
    ensures v.Table? ==> |v.rows| == |cs|
    ensures v.Table? ==> forall i :: 0 <= i < |cs| ==>
      && v.rows[i].id == cs[i].id && v.rows[i].name == cs[i].name
      && v.rows[i].email == cs[i].email && v.rows[i].phone == cs[i].phone
      && (v.rows[i].status == "Activo" <==> cs[i].active)
      && (v.rows[i].status == "Inactivo" <==> !cs[i].active)
  {
    if |cs| == 0 then NoClients else Table(Rows(cs))
  }

  /** displayContent: the four tokens open their form or the list; any other
      token gives the "Opción no válida" screen. */
  function DisplayContent(action: string, cs: seq<Client>): (s: Screen)
    ensures s == RegistrationForm <==> action == "registrar"
    ensures s.ClientList? <==> action == "consultar"
    ensures s.ClientList? ==> s.view == ShowClientList(cs)
    ensures s == UpdateForm <==> action == "actualizar"
    ensures s == DeactivationForm <==> action == "desactivar"
    ensures s == InvalidOption <==> action !in ["registrar", "consultar", "actualizar", "desactivar"]
  {
    match ParseAction(action)
    case Registrar => RegistrationForm
    case Consultar => ClientList(ShowClientList(cs))
    case Actualizar => UpdateForm
    case Desactivar => DeactivationForm
    case Unrecognized => InvalidOption
  }

  /** The store operation a submission of the shown form asks for; the list
      and the invalid-option screen have no form. The registration form has no
      id field, the deactivation form only one. */
  function Submit(s: Screen, input: FormInput): (r: Option<Request>)
    ensures r.Some? <==> s.RegistrationForm? || s.UpdateForm? || s.DeactivationForm?
    ensures s.RegistrationForm? ==> r == Some(RegisterRequest(input.name, input.email, input.phone))
    ensures s.UpdateForm? ==> r == Some(UpdateRequest(input.clientId, input.name, input.email, input.phone))
    ensures s.DeactivationForm? ==> r == Some(DeactivateRequest(input.clientId))
  {
    match s
    case RegistrationForm => Some(RegisterRequest(input.name, input.email, input.phone))
    case UpdateForm => Some(UpdateRequest(input.clientId, input.name, input.email, input.phone))
    case DeactivationForm => Some(DeactivateRequest(input.clientId))
    case _ => None
  }

  /** What a menu choice followed by whatever the user then does leaves in the store:
      `registrar`, `actualizar` and `desactivar` reach register, update and
      deactivate; `consultar` and every other token leave the store as it was. */
  lemma DispatchRoutes(action: string, cs: seq<Client>, input: FormInput)
    ensures var after := match Submit(DisplayContent(action, cs), input)
                         case None => cs
                         case Some(req) => Apply(cs, req).clients;
      && (action == "registrar" ==> after == Register(cs, input.name, input.email, input.phone))
      && (action == "actualizar" ==> after == Update(cs, input.clientId, input.name, input.email, input.phone).clients)
      && (action == "desactivar" ==> after == Deactivate(cs, input.clientId).clients)
      && (action !in ["registrar", "actualizar", "desactivar"] ==> after == cs)
  {
  }

  /** Scenario: two registrations, then an update of client 1's phone and a deactivation of client 2. */
  lemma ScenarioUpdateThenDeactivate()
    ensures var cs := RegisterAll([], [("Ana Gómez", "ana@x.com", "5551234"), ("Luis", "luis@x.com", "5550000")]);
      var r := Update(cs, Some(1), "", "", "9999999");
      && r.outcome == Success
      && r.clients == [Client(1, "Ana Gómez", "ana@x.com", "9999999", true), Client(2, "Luis", "luis@x.com", "5550000", true)]
      && ShowClientList(Deactivate(r.clients, Some(2)).clients)
         == Table([Row(1, "Ana Gómez", "ana@x.com", "9999999", "Activo"), Row(2, "Luis", "luis@x.com", "5550000", "Inactivo")])
  {
    var regs := [("Ana Gómez", "ana@x.com", "5551234"), ("Luis", "luis@x.com", "5550000")];
    RegisterFromEmpty(regs);
    var cs := RegisterAll([], regs);
    WellNumberedIndexOf(cs, 1);
    WellNumberedIndexOf(cs, 2);
  }
}
