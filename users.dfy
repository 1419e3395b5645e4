/**
 * The user services: self-registration (the service and the controller's
 * own copy of it), the admin's create/update/delete, the upsert command,
 * and the queries, including the plain-text credential check.
 *
 * The key of a new user is generated by the database; here it is the
 * parameter `newId`. A key that is already taken makes the save fail, as
 * does `fault`, which stands for any other failure of `SaveChanges`, and
 * `exMessage` is the text of the exception it throws.
 */
module Users {
  import opened Wrappers
  import opened Text
  import opened Entities
  import opened Db

  // ---------------------------------------------------------------------
  // Lookups

  /** No two users share an email; users without one are exempt. */
  predicate UniqueEmails(users: seq<User>) {
    forall i, j :: 0 <= i < j < |users| && users[i].email.Some? ==> users[i].email != users[j].email
  }

  /** `Users.AnyAsync(u => u.Email == email)`. */
  predicate EmailTaken(users: seq<User>, email: Option<string>) {
    exists k :: 0 <= k < |users| && users[k].email == email
  }

  predicate IdTaken(users: seq<User>, id: Guid) {
    exists k :: 0 <= k < |users| && users[k].id == id
  }

  /** The position of the first user with key `id` (`FindAsync`, and
      `Where(x => x.Id == id).FirstOrDefault()`). */
  function FindUser(users: seq<User>, id: Guid): (r: Option<nat>)
    ensures r.Some? ==> r.value < |users| && users[r.value].id == id
    ensures r.Some? ==> forall j :: 0 <= j < r.value ==> users[j].id != id
    ensures r.None? <==> !IdTaken(users, id)
  {
    if users == [] then None
    else if users[0].id == id then Some(0)
    else
      var k := FindUser(users[1..], id);
      assert forall j :: 1 <= j < |users| ==> users[j] == users[1..][j - 1];
      if k.None? then None else Some(k.value + 1)
  }

  /** The position of the first user with exactly that email. */
  function FirstWithEmail(users: seq<User>, email: Option<string>): (r: Option<nat>)
    ensures r.Some? ==> r.value < |users| && users[r.value].email == email
    ensures r.Some? ==> forall j :: 0 <= j < r.value ==> users[j].email != email
    ensures r.None? <==> !EmailTaken(users, email)
  {
    if users == [] then None
    else if users[0].email == email then Some(0)
    else
      var k := FirstWithEmail(users[1..], email);
      assert forall j :: 1 <= j < |users| ==> users[j] == users[1..][j - 1];
      if k.None? then None else Some(k.value + 1)
  }

  /** A user's key is found at the user's own position when keys are unique. */
  lemma FindUserAt(users: seq<User>, k: nat)
    requires UniqueUserIds(users) && k < |users|
    ensures FindUser(users, users[k].id) == Some(k)
  {
  }

  // ---------------------------------------------------------------------
  // Self-registration (`RegisterService`)

  datatype RegisterRequest = RegisterRequest(
    email: Option<string>,
    password: Option<string>,
    firstName: Option<string>,
    lastName: Option<string>,
    nickName: Option<string>)

  /** `EsitoRegistrazione`. */
  datatype Esito = Esito(successo: bool, messaggio: string)

  const MsgObbligatorie: string := "Email e Password sono obbligatorie."
  const MsgEmailRegistrata: string := "Questa email è già registrata."
  const MsgCompletata: string := "Registrazione completata! Effettua il login."
  const MsgErroreRegistrazione: string := "Errore durante la registrazione: "

  /** The user a registration adds: the request's names, email and
      password, and no role. */
  function Registered(email: Option<string>, password: Option<string>, firstName: Option<string>,
                      lastName: Option<string>, nickName: Option<string>, id: Guid): User
  {
    User(id, email, password, firstName, lastName, nickName, None)
  }

  /** The table and the reply after `RegistraUtenteAsync`. */
  function Registration(users: seq<User>, req: RegisterRequest, newId: Guid, fault: bool, exMessage: string): (seq<User>, Esito)
  {
    if IsNullOrWhiteSpace(req.email) || IsNullOrWhiteSpace(req.password) then (users, Esito(false, MsgObbligatorie))
    else if EmailTaken(users, req.email) then (users, Esito(false, MsgEmailRegistrata))
    else if fault || IdTaken(users, newId) then (users, Esito(false, MsgErroreRegistrazione + exMessage))
    else (users + [Registered(req.email, req.password, req.firstName, req.lastName, req.nickName, newId)],
          Esito(true, MsgCompletata))
  }

  /** The outcomes of a registration: it succeeds exactly when email and
      password are filled in, the email is new and the save goes through,
      and then it adds one user with the submitted fields; every failure
      leaves the table as it was, with the reply of its own case. */
  lemma RegistrationSpec(users: seq<User>, req: RegisterRequest, newId: Guid, fault: bool, exMessage: string)
    ensures var (after, esito) := Registration(users, req, newId, fault, exMessage);
      && (esito.successo <==>
            !IsNullOrWhiteSpace(req.email) && !IsNullOrWhiteSpace(req.password)
            && !EmailTaken(users, req.email) && !fault && !IdTaken(users, newId))
      && (esito.successo ==>
            after == users + [User(newId, req.email, req.password, req.firstName, req.lastName, req.nickName, None)]
            && esito.messaggio == MsgCompletata)
      && (!esito.successo ==> after == users)
      && (IsNullOrWhiteSpace(req.email) || IsNullOrWhiteSpace(req.password) ==> esito.messaggio == MsgObbligatorie)
      && (!IsNullOrWhiteSpace(req.email) && !IsNullOrWhiteSpace(req.password) && EmailTaken(users, req.email) ==>
            esito.messaggio == MsgEmailRegistrata)
  {
  }

  /** A successful registration keeps keys unique. */
  lemma RegistrationKeepsIdsUnique(users: seq<User>, req: RegisterRequest, newId: Guid, fault: bool, exMessage: string)
    requires UniqueUserIds(users)
    ensures UniqueUserIds(Registration(users, req, newId, fault, exMessage).0)
  {
    var after := Registration(users, req, newId, fault, exMessage).0;
    if after != users {
      forall i, j | 0 <= i < j < |after| ensures after[i].id != after[j].id {
        if j == |users| {
          assert after[i] == users[i];
        }
      }
    }
  }

  /** No registration adds a second user with an email already present. */
  lemma RegistrationKeepsEmailsUnique(users: seq<User>, req: RegisterRequest, newId: Guid, fault: bool, exMessage: string)
    requires UniqueEmails(users)
    ensures UniqueEmails(Registration(users, req, newId, fault, exMessage).0)
  {
    var after := Registration(users, req, newId, fault, exMessage).0;
    if after != users {
      forall i, j | 0 <= i < j < |after| && after[i].email.Some? ensures after[i].email != after[j].email {
        if j == |users| {
          assert after[i] == users[i];
        }
      }
    }
  }

  /** A run of registrations, each with its generated key and save
      outcome. */
  function RegisterAll(users: seq<User>, reqs: seq<RegisterRequest>, ids: seq<Guid>, faults: seq<bool>): (r: seq<User>)
    requires |ids| == |reqs| && |faults| == |reqs|
    decreases |reqs|
  {
    if reqs == [] then users
    else RegisterAll(Registration(users, reqs[0], ids[0], faults[0], "").0, reqs[1..], ids[1..], faults[1..])
  }

  /** However many registrations run one after the other, no two users end
      up with the same email. */
  lemma {:induction false} RegisterAllKeepsEmailsUnique(users: seq<User>, reqs: seq<RegisterRequest>, ids: seq<Guid>, faults: seq<bool>)
    requires |ids| == |reqs| && |faults| == |reqs|
    requires UniqueEmails(users)
    ensures UniqueEmails(RegisterAll(users, reqs, ids, faults))
    decreases |reqs|
  {
    if reqs != [] {
      RegistrationKeepsEmailsUnique(users, reqs[0], ids[0], faults[0], "");
      RegisterAllKeepsEmailsUnique(Registration(users, reqs[0], ids[0], faults[0], "").0, reqs[1..], ids[1..], faults[1..]);
    }
  }

  /** `RegistraUtenteAsync`. */
  method RegistraUtente(db: Database, req: RegisterRequest, newId: Guid, fault: bool, exMessage: string) returns (esito: Esito)
    requires db.Valid()
    modifies db
    ensures db.Valid()
    ensures (db.users, esito) == Registration(old(db.users), req, newId, fault, exMessage)
    ensures db.postazioni == old(db.postazioni) && db.prenotazioni == old(db.prenotazioni)
    ensures db.menus == old(db.menus) && db.notifiche == old(db.notifiche)
  {
    if IsNullOrWhiteSpace(req.email) || IsNullOrWhiteSpace(req.password) {
      return Esito(false, MsgObbligatorie);
    }
    var emailEsiste := EmailTaken(db.users, req.email);
    if emailEsiste {
      return Esito(false, MsgEmailRegistrata);
    }
    var nuovoUtente := Registered(req.email, req.password, req.firstName, req.lastName, req.nickName, newId);
    if fault || IdTaken(db.users, newId) {
      return Esito(false, MsgErroreRegistrazione + exMessage);
    }
    RegistrationKeepsIdsUnique(db.users, req, newId, fault, exMessage);
    db.users := db.users + [nuovoUtente];
    esito := Esito(true, MsgCompletata);
  }

  // ---------------------------------------------------------------------
  // Self-registration (`RegisterController`, POST)

  /** The registration form. */
  datatype RegisterForm = RegisterForm(
    firstName: Option<string>,
    lastName: Option<string>,
    nickName: Option<string>,
    email: Option<string>,
    password: Option<string>,
    confirmPassword: Option<string>)

  /** The form again (with an error on the Email field, or with the
      validation errors), the redirect to the login page with its success
      alert, or the exception of a failed save, which the controller does
      not catch. */
  datatype RegisterReply = ShowForm(emailError: Option<string>) | RedirectToLogin(alert: string) | SaveThrows

  /** The table and the reply after the POST; `modelValid` is the
      framework's validation of the form. */
  function RegisterPost(users: seq<User>, form: RegisterForm, modelValid: bool, newId: Guid, fault: bool): (seq<User>, RegisterReply)
  {
    if !modelValid then (users, ShowForm(None))
    else if EmailTaken(users, form.email) then (users, ShowForm(Some(MsgEmailRegistrata)))
    else if fault || IdTaken(users, newId) then (users, SaveThrows)
    else (users + [Registered(form.email, form.password, form.firstName, form.lastName, form.nickName, newId)],
          RedirectToLogin(MsgCompletata))
  }

  /** The POST adds exactly one user, with the submitted fields, when the
      form is valid, the email is new and the save goes through, and then
      redirects to the login page; otherwise it adds nobody, and a taken
      email is reported on the Email field. */
  lemma RegisterPostSpec(users: seq<User>, form: RegisterForm, modelValid: bool, newId: Guid, fault: bool)
    ensures var (after, reply) := RegisterPost(users, form, modelValid, newId, fault);
      && (reply.RedirectToLogin? <==> modelValid && !EmailTaken(users, form.email) && !fault && !IdTaken(users, newId))
      && (reply.RedirectToLogin? ==>
            after == users + [User(newId, form.email, form.password, form.firstName, form.lastName, form.nickName, None)])
      && (!reply.RedirectToLogin? ==> after == users)
      && (!modelValid ==> reply == ShowForm(None))
      && (modelValid && EmailTaken(users, form.email) ==> reply == ShowForm(Some(MsgEmailRegistrata)))
  {
  }

  /** The controller repeats the service's checks except the blank test,
      which the form's required fields stand in for: on a valid form with
      email and password filled in, both add the same user or neither
      does. */
  lemma ControllerMatchesService(users: seq<User>, form: RegisterForm, newId: Guid, fault: bool, exMessage: string)
    requires !IsNullOrWhiteSpace(form.email) && !IsNullOrWhiteSpace(form.password)
    ensures var req := RegisterRequest(form.email, form.password, form.firstName, form.lastName, form.nickName);
      RegisterPost(users, form, true, newId, fault).0 == Registration(users, req, newId, fault, exMessage).0
      && (RegisterPost(users, form, true, newId, fault).1.RedirectToLogin? <==>
          Registration(users, req, newId, fault, exMessage).1.successo)
  {
  }

  /** A valid form with an email nobody has, posted twice, adds one user:
      the second post finds the email taken. */
  lemma SecondPostIsRefused(users: seq<User>, form: RegisterForm, newId: Guid, otherId: Guid, fault: bool)
    requires RegisterPost(users, form, true, newId, fault).1.RedirectToLogin?
    ensures var once := RegisterPost(users, form, true, newId, fault).0;
      RegisterPost(once, form, true, otherId, fault) == (once, ShowForm(Some(MsgEmailRegistrata)))
  {
    var once := RegisterPost(users, form, true, newId, fault).0;
    assert once[|users|].email == form.email;
  }

  /** `RegisterController.Register` (POST). */
  method Register(db: Database, form: RegisterForm, modelValid: bool, newId: Guid, fault: bool) returns (reply: RegisterReply)
    requires db.Valid()
    modifies db
    ensures db.Valid()
    ensures (db.users, reply) == RegisterPost(old(db.users), form, modelValid, newId, fault)
    ensures db.postazioni == old(db.postazioni) && db.prenotazioni == old(db.prenotazioni)
    ensures db.menus == old(db.menus) && db.notifiche == old(db.notifiche)
  {
    if !modelValid {
      return ShowForm(None);
    }
    var emailEsiste := EmailTaken(db.users, form.email);
    if emailEsiste {
      return ShowForm(Some(MsgEmailRegistrata));
    }
    var nuovoUtente := Registered(form.email, form.password, form.firstName, form.lastName, form.nickName, newId);
    if fault || IdTaken(db.users, newId) {
      return SaveThrows;
    }
    forall i, j | 0 <= i < j < |db.users + [nuovoUtente]| ensures (db.users + [nuovoUtente])[i].id != (db.users + [nuovoUtente])[j].id {
      if j == |db.users| {
        assert (db.users + [nuovoUtente])[i] == db.users[i];
      }
    }
    db.users := db.users + [nuovoUtente];
    reply := RedirectToLogin(MsgCompletata);
  }

  // ---------------------------------------------------------------------
  // Admin user management (`UserManagementService`)

  datatype UserEditRequest = UserEditRequest(
    email: Option<string>,
    firstName: Option<string>,
    lastName: Option<string>,
    nickName: Option<string>)

  /** `EsitoUtenteOperazione`. */
  datatype EsitoUtente = EsitoUtente(successo: bool, messaggio: string, utenteId: Option<Guid>)

  const MsgNonTrovato: string := "Utente non trovato"
  const MsgAggiornato: string := "Informazioni aggiornate"
  const MsgCreato: string := "Utente creato con successo"
  const MsgCancellato: string := "Utente cancellato"
  const MsgErrore: string := "Errore: "
  /** The password every user created by an admin starts with. */
  const DefaultPassword: string := "ChangeMe123!"

  /** A user with the four editable fields taken from the request. */
  function Edited(u: User, req: UserEditRequest): User {
    u.(email := req.email, firstName := req.firstName, lastName := req.lastName, nickName := req.nickName)
  }

  /** The table and the reply after `AggiornaUtenteAsync`. */
  function Aggiornamento(users: seq<User>, id: Guid, req: UserEditRequest, fault: bool, exMessage: string): (seq<User>, EsitoUtente)
  {
    match FindUser(users, id)
    case None => (users, EsitoUtente(false, MsgNonTrovato, None))
    case Some(k) =>
      if fault then (users, EsitoUtente(false, MsgErrore + exMessage, None))
      else (users[k := Edited(users[k], req)], EsitoUtente(true, MsgAggiornato, Some(id)))
  }

  /** An update succeeds exactly for a key in the table when the save goes
      through; it then overwrites the email and the three names of that
      user and nothing else (key, password and role stay), leaves every
      other user as it was, and answers with the same key. A missing key
      or a failed save changes nothing. */
  lemma AggiornamentoSpec(users: seq<User>, id: Guid, req: UserEditRequest, fault: bool, exMessage: string)
    requires UniqueUserIds(users)
    ensures var (after, esito) := Aggiornamento(users, id, req, fault, exMessage);
      && (esito.successo <==> IdTaken(users, id) && !fault)
      && (!IdTaken(users, id) ==> esito.messaggio == MsgNonTrovato)
      && (!esito.successo ==> after == users && esito.utenteId.None?)
      && (esito.successo ==>
            && esito.utenteId == Some(id)
            && |after| == |users|
            && (forall k :: 0 <= k < |users| && users[k].id != id ==> after[k] == users[k])
            && (forall k :: 0 <= k < |users| && users[k].id == id ==>
                  && after[k].id == id && after[k].password == users[k].password && after[k].ruolo == users[k].ruolo
                  && after[k].email == req.email && after[k].firstName == req.firstName
                  && after[k].lastName == req.lastName && after[k].nickName == req.nickName))
  {
    var k := FindUser(users, id);
    if k.Some? {
      forall j | 0 <= j < |users| && users[j].id == id ensures j == k.value {
        FindUserAt(users, j);
      }
    }
  }

  /** `AggiornaUtenteAsync`. */
  method AggiornaUtente(db: Database, id: Guid, req: UserEditRequest, fault: bool, exMessage: string) returns (esito: EsitoUtente)
    requires db.Valid()
    modifies db
    ensures db.Valid()
    ensures (db.users, esito) == Aggiornamento(old(db.users), id, req, fault, exMessage)
    ensures db.postazioni == old(db.postazioni) && db.prenotazioni == old(db.prenotazioni)
    ensures db.menus == old(db.menus) && db.notifiche == old(db.notifiche)
  {
    var found := FindUser(db.users, id);
    if found.None? {
      return EsitoUtente(false, MsgNonTrovato, None);
    }
    var user := db.users[found.value];
    user := user.(email := req.email);
    user := user.(firstName := req.firstName);
    user := user.(lastName := req.lastName);
    user := user.(nickName := req.nickName);
    if fault {
      return EsitoUtente(false, MsgErrore + exMessage, None);
    }
    db.users := db.users[found.value := user];
    esito := EsitoUtente(true, MsgAggiornato, Some(id));
  }

  /** The user an admin creates: the request's fields and the default
      password. */
  function Created(req: UserEditRequest, id: Guid): User {
    User(id, req.email, Some(DefaultPassword), req.firstName, req.lastName, req.nickName, None)
  }

  /** The table and the reply after `CreaUtenteAsync`. */
  function Creazione(users: seq<User>, req: UserEditRequest, newId: Guid, fault: bool, exMessage: string): (seq<User>, EsitoUtente)
  {
    if fault || IdTaken(users, newId) then (users, EsitoUtente(false, MsgErrore + exMessage, None))
    else (users + [Created(req, newId)], EsitoUtente(true, MsgCreato, Some(newId)))
  }

  /** Creation succeeds exactly when the save goes through, adds one user
      with the request's fields and the default password, and answers
      with the new key; a failed save changes nothing. */
  lemma CreazioneSpec(users: seq<User>, req: UserEditRequest, newId: Guid, fault: bool, exMessage: string)
    ensures var (after, esito) := Creazione(users, req, newId, fault, exMessage);
      && (esito.successo <==> !fault && !IdTaken(users, newId))
      && (esito.successo ==>
            after == users + [User(newId, req.email, Some(DefaultPassword), req.firstName, req.lastName, req.nickName, None)]
            && esito.utenteId == Some(newId) && esito.messaggio == MsgCreato)
      && (!esito.successo ==> after == users && esito.utenteId.None?)
  {
  }

  /** Creation does not look at the emails already present: it adds a
      second user with a taken email. */
  lemma CreationSkipsEmailCheck(users: seq<User>, req: UserEditRequest, newId: Guid, exMessage: string)
    requires req.email.Some? && EmailTaken(users, req.email) && !IdTaken(users, newId)
    ensures Creazione(users, req, newId, false, exMessage).1.successo
    ensures !UniqueEmails(Creazione(users, req, newId, false, exMessage).0)
  {
    var after := Creazione(users, req, newId, false, exMessage).0;
    var k :| 0 <= k < |users| && users[k].email == req.email;
    assert after[k] == users[k] && after[|users|].email == req.email;
  }

  /** `CreaUtenteAsync`. */
  method CreaUtente(db: Database, req: UserEditRequest, newId: Guid, fault: bool, exMessage: string) returns (esito: EsitoUtente)
    requires db.Valid()
    modifies db
    ensures db.Valid()
    ensures (db.users, esito) == Creazione(old(db.users), req, newId, fault, exMessage)
    ensures db.postazioni == old(db.postazioni) && db.prenotazioni == old(db.prenotazioni)
    ensures db.menus == old(db.menus) && db.notifiche == old(db.notifiche)
  {
    var newUser := Created(req, newId);
    if fault || IdTaken(db.users, newId) {
      return EsitoUtente(false, MsgErrore + exMessage, None);
    }
    AppendFreshKeepsIdsUnique(db.users, newUser);
    db.users := db.users + [newUser];
    esito := EsitoUtente(true, MsgCreato, Some(newUser.id));
  }

  /** Appending a user with an unused key keeps keys unique. */
  lemma AppendFreshKeepsIdsUnique(users: seq<User>, u: User)
    requires UniqueUserIds(users) && !IdTaken(users, u.id)
    ensures UniqueUserIds(users + [u])
  {
    var after := users + [u];
    forall i, j | 0 <= i < j < |after| ensures after[i].id != after[j].id {
      if j == |users| {
        assert after[i] == users[i];
      }
    }
  }

  /** The table without the user at position `k`. */
  function RemovedAt(users: seq<User>, k: nat): (r: seq<User>)
    requires k < |users|
    ensures |r| == |users| - 1
    ensures forall j :: 0 <= j < |r| ==> r[j] == users[if j < k then j else j + 1]
  {
    users[..k] + users[k + 1..]
  }

  /** The table and the reply after `EliminaUtenteAsync`. */
  function Eliminazione(users: seq<User>, id: Guid, fault: bool, exMessage: string): (seq<User>, EsitoUtente)
  {
    match FindUser(users, id)
    case None => (users, EsitoUtente(false, MsgNonTrovato, None))
    case Some(k) =>
      if fault then (users, EsitoUtente(false, MsgErrore + exMessage, None))
      else (RemovedAt(users, k), EsitoUtente(true, MsgCancellato, None))
  }

  /** A deletion succeeds exactly for a key in the table when the save
      goes through; it then removes that user and only that one (with
      unique keys no user with the key remains), keeping the others in
      order. A missing key or a failed save changes nothing. */
  lemma EliminazioneSpec(users: seq<User>, id: Guid, fault: bool, exMessage: string)
    requires UniqueUserIds(users)
    ensures var (after, esito) := Eliminazione(users, id, fault, exMessage);
      && (esito.successo <==> IdTaken(users, id) && !fault)
      && (!IdTaken(users, id) ==> esito.messaggio == MsgNonTrovato)
      && (!esito.successo ==> after == users)
      && (esito.successo ==>
            && |after| == |users| - 1
            && (exists k :: 0 <= k < |users| && users[k].id == id && after == users[..k] + users[k + 1..])
            && !IdTaken(after, id)
            && (forall u :: u in users && u.id != id ==> u in after)
            && (forall u :: u in after ==> u in users)
            && UniqueUserIds(after))
  {
    var (after, esito) := Eliminazione(users, id, fault, exMessage);
    if esito.successo {
      var k := FindUser(users, id).value;
      assert after == users[..k] + users[k + 1..];
      forall u | u in users && u.id != id ensures u in after {
        var j :| 0 <= j < |users| && users[j] == u;
        assert after[if j < k then j else j - 1] == u;
      }
      forall i, j | 0 <= i < j < |after| ensures after[i].id != after[j].id {
        assert after[i] == users[if i < k then i else i + 1];
        assert after[j] == users[if j < k then j else j + 1];
      }
      forall j | 0 <= j < |after| ensures after[j].id != id {
        assert after[j] == users[if j < k then j else j + 1];
      }
    }
  }

  /** `EliminaUtenteAsync`. */
  method EliminaUtente(db: Database, id: Guid, fault: bool, exMessage: string) returns (esito: EsitoUtente)
    requires db.Valid()
    modifies db
    ensures db.Valid()
    ensures (db.users, esito) == Eliminazione(old(db.users), id, fault, exMessage)
    ensures db.postazioni == old(db.postazioni) && db.prenotazioni == old(db.prenotazioni)
    ensures db.menus == old(db.menus) && db.notifiche == old(db.notifiche)
  {
    var found := FindUser(db.users, id);
    if found.None? {
      return EsitoUtente(false, MsgNonTrovato, None);
    }
    if fault {
      return EsitoUtente(false, MsgErrore + exMessage, None);
    }
    EliminazioneSpec(db.users, id, fault, exMessage);
    db.users := RemovedAt(db.users, found.value);
    esito := EsitoUtente(true, MsgCancellato, None);
  }

  // ---------------------------------------------------------------------
  // The upsert command (`UserCommands.Handle`)

  datatype AddOrUpdateUserCommand = AddOrUpdateUserCommand(
    id: Option<Guid>,
    email: Option<string>,
    firstName: Option<string>,
    lastName: Option<string>,
    nickName: Option<string>)

  /** The position of the user the command names; a command without a key
      names nobody. */
  function Target(users: seq<User>, id: Option<Guid>): (r: Option<nat>)
    ensures r.Some? ==> id.Some? && r.value < |users| && users[r.value].id == id.value
    ensures r.None? <==> id.None? || !IdTaken(users, id.value)
  {
    if id.None? then None else FindUser(users, id.value)
  }

  /** The table and the returned key after `Handle`; `None` where the save
      throws, which `Handle` does not catch. */
  function Upsert(users: seq<User>, cmd: AddOrUpdateUserCommand, newId: Guid, fault: bool): (seq<User>, Option<Guid>)
  {
    match Target(users, cmd.id)
    case Some(k) =>
      if fault then (users, None)
      else
        var u := users[k].(firstName := cmd.firstName, lastName := cmd.lastName, nickName := cmd.nickName);
        (users[k := u], Some(u.id))
    case None =>
      if fault || IdTaken(users, newId) then (users, None)
      else (users + [User(newId, cmd.email, None, cmd.firstName, cmd.lastName, cmd.nickName, None)], Some(newId))
  }

  /** A command naming an existing user sets that user's three names and
      keeps its email, password and role, and returns its key; any other
      command (a missing key included) appends a user with the command's
      email and names and no password, and returns the new key. */
  lemma UpsertSpec(users: seq<User>, cmd: AddOrUpdateUserCommand, newId: Guid)
    requires UniqueUserIds(users) && !IdTaken(users, newId)
    ensures var (after, id) := Upsert(users, cmd, newId, false);
      && id.Some?
      && (cmd.id.Some? && IdTaken(users, cmd.id.value) ==>
            && id == cmd.id
            && |after| == |users|
            && (forall k :: 0 <= k < |users| && users[k].id != id.value ==> after[k] == users[k])
            && (forall k :: 0 <= k < |users| && users[k].id == id.value ==>
                  && after[k].email == users[k].email && after[k].password == users[k].password
                  && after[k].ruolo == users[k].ruolo
                  && after[k].firstName == cmd.firstName && after[k].lastName == cmd.lastName
                  && after[k].nickName == cmd.nickName))
      && (cmd.id.None? || !IdTaken(users, cmd.id.value) ==>
            && id == Some(newId)
            && after == users + [User(newId, cmd.email, None, cmd.firstName, cmd.lastName, cmd.nickName, None)])
      && UniqueUserIds(after)
  {
    var k := Target(users, cmd.id);
    if k.Some? {
      forall j | 0 <= j < |users| && users[j].id == cmd.id.value ensures j == k.value {
        FindUserAt(users, j);
      }
      var after := Upsert(users, cmd, newId, false).0;
      forall i, j | 0 <= i < j < |after| ensures after[i].id != after[j].id {
        assert after[i].id == users[i].id && after[j].id == users[j].id;
      }
    } else {
      AppendFreshKeepsIdsUnique(users, User(newId, cmd.email, None, cmd.firstName, cmd.lastName, cmd.nickName, None));
    }
  }

  /** `UserCommands.Handle`: find or create, set the names, save. */
  method Handle(db: Database, cmd: AddOrUpdateUserCommand, newId: Guid, fault: bool) returns (id: Option<Guid>)
    requires db.Valid()
    modifies db
    ensures db.Valid()
    ensures (db.users, id) == Upsert(old(db.users), cmd, newId, fault)
    ensures db.postazioni == old(db.postazioni) && db.prenotazioni == old(db.prenotazioni)
    ensures db.menus == old(db.menus) && db.notifiche == old(db.notifiche)
  {
    var found := Target(db.users, cmd.id);
    var user: User;
    if found.None? {
      user := User(newId, cmd.email, None, None, None, None, None);
    } else {
      user := db.users[found.value];
    }
    user := user.(firstName := cmd.firstName, lastName := cmd.lastName, nickName := cmd.nickName);
    if fault || (found.None? && IdTaken(db.users, newId)) {
      return None;
    }
    if found.None? {
      AppendFreshKeepsIdsUnique(db.users, user);
      db.users := db.users + [user];
    } else {
      var updated := db.users[found.value := user];
      forall i, j | 0 <= i < j < |updated| ensures updated[i].id != updated[j].id {
        assert updated[i].id == db.users[i].id && updated[j].id == db.users[j].id;
      }
      db.users := updated;
    }
    id := Some(user.id);
  }

  // ---------------------------------------------------------------------
  // Queries (`UserQueries`)

  /** `GetUserByEmailAsync`: the first user with exactly that email. */
  function GetUserByEmail(users: seq<User>, email: Option<string>): (r: Option<User>)
    ensures r.Some? ==> r.value in users && r.value.email == email
    ensures r.None? <==> !EmailTaken(users, email)
  {
    match FirstWithEmail(users, email)
    case Some(k) => Some(users[k])
    case None => None
  }

  /** The email filter of the select and index queries: a blank filter
      keeps everyone; otherwise the email must contain it (a user without
      an email never matches). */
  predicate MatchesFilter(u: User, filter: Option<string>) {
    IsNullOrWhiteSpace(filter) || (u.email.Some? && Contains(u.email.value, filter.value))
  }

  function Filtered(users: seq<User>, filter: Option<string>): (r: seq<User>)
    ensures forall u :: u in r <==> u in users && MatchesFilter(u, filter)
    ensures |r| <= |users|
  {
    if users == [] then []
    else if MatchesFilter(users[0], filter) then [users[0]] + Filtered(users[1..], filter)
    else Filtered(users[1..], filter)
  }

  /** The filter keeps the table's order: filtering a concatenation
      filters each part. */
  lemma {:induction false} FilteredAppend(a: seq<User>, b: seq<User>, filter: Option<string>)
    ensures Filtered(a + b, filter) == Filtered(a, filter) + Filtered(b, filter)
  {
    if a != [] {
      assert (a + b)[0] == a[0] && (a + b)[1..] == a[1..] + b;
      FilteredAppend(a[1..], b, filter);
    } else {
      assert a + b == b;
    }
  }

  /** A blank filter returns the whole table, in its order. */
  lemma {:induction false} BlankFilterKeepsAll(users: seq<User>, filter: Option<string>)
    requires IsNullOrWhiteSpace(filter)
    ensures Filtered(users, filter) == users
  {
    if users != [] {
      BlankFilterKeepsAll(users[1..], filter);
    }
  }

  datatype UsersSelectQuery = UsersSelectQuery(idCurrentUser: Guid, filter: Option<string>)
  datatype UserSummary = UserSummary(id: Guid, email: Option<string>)
  datatype UsersSelect = UsersSelect(users: seq<UserSummary>, count: int)

  /** The select query: key and email of the matching users, and their
      count. */
  function SelectUsers(users: seq<User>, q: UsersSelectQuery): (r: UsersSelect)
    ensures r.count == |r.users|
    ensures forall s :: s in r.users <==> exists u :: u in users && MatchesFilter(u, q.filter) && s == UserSummary(u.id, u.email)
  {
    var rows := Filtered(users, q.filter);
    var summaries := seq(|rows|, k requires 0 <= k < |rows| => UserSummary(rows[k].id, rows[k].email));
    forall s ensures s in summaries <==> exists u :: u in users && MatchesFilter(u, q.filter) && s == UserSummary(u.id, u.email) {
      if s in summaries {
        var k :| 0 <= k < |rows| && summaries[k] == s;
        assert rows[k] in rows;
      }
      if exists u :: u in users && MatchesFilter(u, q.filter) && s == UserSummary(u.id, u.email) {
        var u :| u in users && MatchesFilter(u, q.filter) && s == UserSummary(u.id, u.email);
        var k :| 0 <= k < |rows| && rows[k] == u;
        assert summaries[k] == s;
      }
    }
    UsersSelect(summaries, |rows|)
  }

  /** The paging a caller may pass; the index query does not apply it. */
  datatype Paging = Paging(orderBy: Option<string>, orderByDescending: bool, page: int, pageSize: int)

  datatype UsersIndexQuery = UsersIndexQuery(idCurrentUser: Guid, filter: Option<string>, paging: Paging)
  datatype UserRow = UserRow(id: Guid, email: Option<string>, firstName: Option<string>, lastName: Option<string>)
  datatype UsersIndex = UsersIndex(users: seq<UserRow>, count: int)

  function RowOf(u: User): UserRow {
    UserRow(u.id, u.email, u.firstName, u.lastName)
  }

  /** The index query: the matching users with their names, and their
      count. */
  function IndexUsers(users: seq<User>, q: UsersIndexQuery): (r: UsersIndex)
    ensures r.count == |r.users|
    ensures forall row :: row in r.users <==> exists u :: u in users && MatchesFilter(u, q.filter) && row == RowOf(u)
  {
    var rows := Filtered(users, q.filter);
    var list := seq(|rows|, k requires 0 <= k < |rows| => RowOf(rows[k]));
    forall row ensures row in list <==> exists u :: u in users && MatchesFilter(u, q.filter) && row == RowOf(u) {
      if row in list {
        var k :| 0 <= k < |rows| && list[k] == row;
        assert rows[k] in rows;
      }
      if exists u :: u in users && MatchesFilter(u, q.filter) && row == RowOf(u) {
        var u :| u in users && MatchesFilter(u, q.filter) && row == RowOf(u);
        var k :| 0 <= k < |rows| && rows[k] == u;
        assert list[k] == row;
      }
    }
    UsersIndex(list, |rows|)
  }

  /** The current user and the paging do not change the index: two
      queries with the same filter give the same page. */
  lemma IndexIgnoresCurrentUserAndPaging(users: seq<User>, a: UsersIndexQuery, b: UsersIndexQuery)
    requires a.filter == b.filter
    ensures IndexUsers(users, a) == IndexUsers(users, b)
  {
  }

  /** The detail of a user as the queries return it. */
  datatype UserDetail = UserDetail(
    id: Guid,
    email: Option<string>,
    firstName: Option<string>,
    lastName: Option<string>,
    nickName: Option<string>,
    ruolo: Option<string>)

  function DetailOf(u: User): UserDetail {
    UserDetail(u.id, u.email, u.firstName, u.lastName, u.nickName, u.ruolo)
  }

  /** The detail query: the user with that key, or `null`. */
  function UserDetailById(users: seq<User>, id: Guid): (r: Option<UserDetail>)
    ensures r.None? <==> !IdTaken(users, id)
    ensures forall u :: u in users && u.id == id && UniqueUserIds(users) ==> r == Some(DetailOf(u))
  {
    var k := FindUser(users, id);
    assert forall j :: 0 <= j < |users| && UniqueUserIds(users) && users[j].id == id ==> FindUser(users, id) == Some(j) by {
      forall j | 0 <= j < |users| && UniqueUserIds(users) && users[j].id == id ensures FindUser(users, id) == Some(j) {
        FindUserAt(users, j);
      }
    }
    if k.Some? then Some(DetailOf(users[k.value])) else None
  }

  /** The credential check: the first user with that email, if the
      password matches it; `None` where the query throws "Email o password
      errate". */
  function CheckLogin(users: seq<User>, email: Option<string>, password: Option<string>): (r: Option<UserDetail>)
    ensures r.Some? <==> FirstWithEmail(users, email).Some? && IsMatchWithPassword(users[FirstWithEmail(users, email).value], password)
    ensures r.Some? ==> r == Some(DetailOf(users[FirstWithEmail(users, email).value]))
  {
    match FirstWithEmail(users, email)
    case None => None
    case Some(k) => if IsMatchWithPassword(users[k], password) then Some(DetailOf(users[k])) else None
  }

  /** A blank password never logs anyone in, whatever is stored. */
  lemma BlankPasswordNeverLogsIn(users: seq<User>, email: Option<string>, password: Option<string>)
    requires IsNullOrWhiteSpace(password)
    ensures CheckLogin(users, email, password).None?
  {
  }

  /** Whoever registers can then log in with the email and password just
      registered, and gets back the new account. */
  lemma RegisteredUserCanLogIn(users: seq<User>, req: RegisterRequest, newId: Guid, fault: bool, exMessage: string)
    requires Registration(users, req, newId, fault, exMessage).1.successo
    ensures CheckLogin(Registration(users, req, newId, fault, exMessage).0, req.email, req.password)
         == Some(UserDetail(newId, req.email, req.firstName, req.lastName, req.nickName, None))
  {
    var after := Registration(users, req, newId, fault, exMessage).0;
    assert after[|users|].email == req.email;
    FirstAfterAppend(users, after[|users|]);
  }

  /** Appending a user with an email nobody has makes it the first with
      that email. */
  lemma FirstAfterAppend(users: seq<User>, u: User)
    requires !EmailTaken(users, u.email)
    ensures FirstWithEmail(users + [u], u.email) == Some(|users|)
  {
    var after := users + [u];
    assert after[|users|].email == u.email;
    forall j | 0 <= j < |users| ensures after[j].email != u.email {
      assert after[j] == users[j];
    }
  }

  /** A user an admin creates with an email nobody has logs in with the
      default password. */
  lemma CreatedUserLogsInWithDefault(users: seq<User>, req: UserEditRequest, newId: Guid, exMessage: string)
    requires !IdTaken(users, newId) && !EmailTaken(users, req.email)
    ensures CheckLogin(Creazione(users, req, newId, false, exMessage).0, req.email, Some(DefaultPassword))
         == Some(DetailOf(Created(req, newId)))
  {
    assert DefaultPassword[0] == 'C';
    FirstAfterAppend(users, Created(req, newId));
  }

  /** A user the upsert command creates has no password and can never log
      in. */
  lemma UpsertedUserCannotLogIn(users: seq<User>, cmd: AddOrUpdateUserCommand, newId: Guid, password: Option<string>)
    requires UniqueUserIds(users) && !IdTaken(users, newId) && (cmd.id.None? || !IdTaken(users, cmd.id.value))
    ensures var after := Upsert(users, cmd, newId, false).0;
      !IsMatchWithPassword(after[|after| - 1], password)
  {
    UpsertSpec(users, cmd, newId);
  }

  // ---------------------------------------------------------------------
  // `User.IsMatchWithPassword`

  /** A user whose stored password is blank can never be matched. */
  lemma BlankStoredPasswordNeverMatches(u: User, candidate: Option<string>)
    requires IsNullOrWhiteSpace(u.password)
    ensures !IsMatchWithPassword(u, candidate)
  {
  }

  /** The comparison is case-sensitive: a stored password with a
      lower-case letter is not matched by its upper-case spelling. */
  lemma MatchIsCaseSensitive(u: User, i: nat)
    requires u.password.Some? && i < |u.password.value| && 'a' <= u.password.value[i] <= 'z'
    ensures !IsMatchWithPassword(u, Some(Upper(u.password.value)))
  {
    assert Upper(u.password.value)[i] != u.password.value[i];
  }
}
