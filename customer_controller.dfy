/** The customer controller: fetch by id, create with a name check and the
    e-mail format test, update through a descriptor of the defined fields with
    empty contact fields stored as NULL, and hard delete. The table carries a
    unique index on `email` (the controller answers 409 on a duplicate) and
    `sales.customer_id` refers to it. */
module CustomerController {
  import opened Base
  import opened Database

  /** The request body; a field the client left out is `None`. */
  datatype CustomerBody = CustomerBody(name: Option<string>, email: Option<string>, phone: Option<string>, address: Option<string>)

  /** The update descriptor `fieldsToUpdate`: `None` leaves a column alone,
      `Some(v)` sets it to `v`, where a contact column's `v` is `None` for NULL. */
  datatype CustomerFields = CustomerFields(
    name: Option<string>,
    email: Option<Option<string>>,
    phone: Option<Option<string>>,
    address: Option<Option<string>>)

  /** 200 with a row, 201 with the new id and the body's fields as sent, 204, or an
      error status with its message. */
  datatype CustomerReply =
    | Found(id: int, customer: Customer)
    | Created(id: int, sent: CustomerBody)
    | NoContent
    | Failed(status: int, message: string)

  const NotFoundMessage := "Customer not found"
  const NameRequiredMessage := "Customer name is required."
  const InvalidEmailMessage := "Invalid email format."
  const EmailExistsMessage := "Email already exists."
  const EmailExistsForOtherMessage := "Email already exists for another customer."
  const NoFieldsMessage := "No fields provided for update"
  const EmptyNameMessage := "Customer name cannot be empty."
  const DeleteErrorMessage := "Error deleting customer"

  const NoBody := CustomerBody(None, None, None, None)
  const NoFields := CustomerFields(None, None, None, None)

  // ---------------------------------------------------------------------------
  // The e-mail format test /\S+@\S+\.\S+/
  // ---------------------------------------------------------------------------

  /** The characters JavaScript's `\s` matches. */
  predicate IsSpace(c: char) {
    || c == ' ' || c == '\t' || c == '\n' || c == '\r' || c == '\U{000B}' || c == '\U{000C}'
    || c == '\U{00A0}' || c == '\U{1680}' || ('\U{2000}' <= c <= '\U{200A}')
    || c == '\U{2028}' || c == '\U{2029}' || c == '\U{202F}' || c == '\U{205F}'
    || c == '\U{3000}' || c == '\U{FEFF}'
  }

  /** No character of `s[a..b]` is a space. */
  predicate NoSpaceIn(s: string, a: int, b: int)
    requires 0 <= a <= b <= |s|
  {
    forall k :: a <= k < b ==> !IsSpace(s[k])
  }

  /** `t` as a whole matches `\S+@\S+\.\S+`: a non-empty run of non-space characters,
      '@', another non-empty run, '.', and a last non-empty run. */
  ghost predicate WholeMatch(t: string) {
    exists p, q ::
      && 0 < p && p + 1 < q && q + 1 < |t|
      && t[p] == '@' && t[q] == '.'
      && NoSpaceIn(t, 0, p) && NoSpaceIn(t, p + 1, q) && NoSpaceIn(t, q + 1, |t|)
  }

  /** What `.test(s)` answers for the unanchored pattern: some substring matches it whole. */
  ghost predicate RegexTest(s: string) {
    exists i, j :: 0 <= i <= j <= |s| && WholeMatch(s[i..j])
  }

  /** An '@' at `p` with a non-space before it, a run of non-spaces up to a '.' at `q`,
      and a non-space after the '.'. */
  predicate EmailWindow(s: string, p: int, q: int)
    requires 0 < p && p + 1 < q && q + 1 < |s|
  {
    !IsSpace(s[p - 1]) && s[p] == '@' && NoSpaceIn(s, p + 1, q) && s[q] == '.' && !IsSpace(s[q + 1])
  }

  /** The format test as the controller evaluates it. */
  predicate LooksLikeEmail(s: string)
    ensures LooksLikeEmail(s) ==> |s| >= 5 && '@' in s
  {
    exists p, q :: 0 < p && p + 1 < q && q + 1 < |s| && EmailWindow(s, p, q)
  }

  /** A window is itself a whole match of the pattern, from the character before
      the '@' to the one after the '.'. */
  lemma WindowMatches(s: string, p: int, q: int)
    requires 0 < p && p + 1 < q && q + 1 < |s| && EmailWindow(s, p, q)
    ensures WholeMatch(s[p - 1..q + 2])
  {
    var t := s[p - 1..q + 2];
    assert forall k :: 0 <= k < |t| ==> t[k] == s[p - 1 + k];
    assert NoSpaceIn(t, 2, q - p + 1) by {
      forall k | 2 <= k < q - p + 1
        ensures !IsSpace(t[k])
      {
        assert t[k] == s[p - 1 + k];
      }
    }
    assert t[1] == '@' && t[q - p + 1] == '.';
    assert NoSpaceIn(t, 0, 1) && NoSpaceIn(t, q - p + 2, |t|);
  }

  /** The window test decides exactly the unanchored regular expression. */
  lemma LooksLikeEmailIsRegexTest(s: string)
    ensures LooksLikeEmail(s) <==> RegexTest(s)
  {
    if LooksLikeEmail(s) {
      var p, q :| 0 < p && p + 1 < q && q + 1 < |s| && EmailWindow(s, p, q);
      WindowMatches(s, p, q);
    }
    if RegexTest(s) {
      var i, j :| 0 <= i <= j <= |s| && WholeMatch(s[i..j]);
      var t := s[i..j];
      var p, q :| && 0 < p && p + 1 < q && q + 1 < |t|
                  && t[p] == '@' && t[q] == '.'
                  && NoSpaceIn(t, 0, p) && NoSpaceIn(t, p + 1, q) && NoSpaceIn(t, q + 1, |t|);
      MatchHasWindow(s, i, j, p, q);
    }
  }

  /** A substring matching the pattern whole, with its '@' at `p` and its '.' at `q`,
      contains a window. */
  lemma MatchHasWindow(s: string, i: int, j: int, p: int, q: int)
    requires 0 <= i <= j <= |s| && 0 < p && p + 1 < q && q + 1 < j - i
    requires s[i..j][p] == '@' && s[i..j][q] == '.'
    requires NoSpaceIn(s[i..j], 0, p) && NoSpaceIn(s[i..j], p + 1, q) && NoSpaceIn(s[i..j], q + 1, j - i)
    ensures LooksLikeEmail(s)
  {
    var t := s[i..j];
    var x, y := i + p, i + q;
    assert NoSpaceIn(s, x + 1, y) by {
      forall k | x + 1 <= k < y
        ensures !IsSpace(s[k])
      {
        assert s[k] == t[k - i];
      }
    }
    assert s[x - 1] == t[p - 1] && s[x] == t[p] && s[y] == t[q] && s[y + 1] == t[q + 1];
    assert EmailWindow(s, x, y);
  }

  /** The test is unanchored: text around an address does not hide it. */
  lemma EmailExamples()
    ensures LooksLikeEmail("ana@mail.com")
    ensures LooksLikeEmail("write to ana@mail.com today")
    ensures !LooksLikeEmail("ana@mail")
  {
    var s := "ana@mail.com";
    assert s[4..8] == "mail";
    assert EmailWindow(s, 3, 8);
    var u := "write to ana@mail.com today";
    assert u[13..17] == "mail";
    assert EmailWindow(u, 12, 17);
    var v := "ana@mail";
    assert forall q :: 0 <= q < |v| ==> v[q] != '.';
  }

  // ---------------------------------------------------------------------------
  // Field handling
  // ---------------------------------------------------------------------------

  /** JavaScript falsiness of an optional string: `undefined` and "" are falsy. */
  predicate Falsy(field: Option<string>) {
    field.None? || field.value == ""
  }

  /** `field || null`: the empty string and a missing field are both stored as NULL. */
  function OrNull(field: Option<string>): (r: Option<string>)
    ensures r.None? <==> Falsy(field)
    ensures r.Some? ==> r == field && r.value != ""
  {
    if Falsy(field) then None else field
  }

  /** `email && !regex.test(email)`: a present, non-empty e-mail that fails the format test. */
  predicate BadEmail(email: Option<string>) {
    !Falsy(email) && !LooksLikeEmail(email.value)
  }

  /** The unique index on `email`: a customer other than `self` already holds this non-NULL
      address. NULLs never collide. */
  predicate EmailTaken(customers: map<int, Customer>, email: Option<string>, self: int) {
    email.Some? && exists k :: k in customers && k != self && customers[k].email == email
  }

  /** The row `createCustomer` inserts. */
  function NewCustomer(body: CustomerBody): (c: Customer)
    requires !Falsy(body.name)
    ensures Some(c.name) == body.name && c.name != ""
    ensures c.email == OrNull(body.email) && c.phone == OrNull(body.phone) && c.address == OrNull(body.address)
  {
    Customer(body.name.value, OrNull(body.email), OrNull(body.phone), OrNull(body.address))
  }

  /** The descriptor the update builds: the defined fields only, contact fields
      normalised so that a defined empty value becomes NULL. */
  function FieldsToUpdate(body: CustomerBody): (f: CustomerFields)
    ensures f.name == body.name
    ensures f.email.Some? <==> body.email.Some?
    ensures f.phone.Some? <==> body.phone.Some?
    ensures f.address.Some? <==> body.address.Some?
    ensures f.email.Some? ==> f.email.value == OrNull(body.email)
    ensures f.phone.Some? ==> f.phone.value == OrNull(body.phone)
    ensures f.address.Some? ==> f.address.value == OrNull(body.address)
    ensures f == NoFields <==> body == NoBody
  {
    CustomerFields(
      body.name,
      if body.email.Some? then Some(OrNull(body.email)) else None,
      if body.phone.Some? then Some(OrNull(body.phone)) else None,
      if body.address.Some? then Some(OrNull(body.address)) else None)
  }

  /** `UPDATE customers SET ?`: the columns in the descriptor are set, the others kept. */
  function ApplyFields(c: Customer, f: CustomerFields): (r: Customer)
    ensures r.name == if f.name.Some? then f.name.value else c.name
    ensures r.email == if f.email.Some? then f.email.value else c.email
    ensures r.phone == if f.phone.Some? then f.phone.value else c.phone
    ensures r.address == if f.address.Some? then f.address.value else c.address
  {
    Customer(
      if f.name.Some? then f.name.value else c.name,
      if f.email.Some? then f.email.value else c.email,
      if f.phone.Some? then f.phone.value else c.phone,
      if f.address.Some? then f.address.value else c.address)
  }

  /** Updating with the body a customer was created from gives back that row, and an
      update is idempotent. */
  lemma UpdateWithCreationBody(c: Customer, body: CustomerBody)
    requires !Falsy(body.name) && body.email.Some? && body.phone.Some? && body.address.Some?
    ensures ApplyFields(c, FieldsToUpdate(body)) == NewCustomer(body)
    ensures ApplyFields(ApplyFields(c, FieldsToUpdate(body)), FieldsToUpdate(body)) == ApplyFields(c, FieldsToUpdate(body))
  {
  }

  /** An insert the unique index lets through keeps the tables well formed. */
  lemma InsertKeepsWellFormed(t: Tables, row: Customer)
    requires WellFormed(t) && !EmailTaken(t.customers, row.email, t.nextCustomerId)
    ensures WellFormed(t.(customers := t.customers[t.nextCustomerId := row], nextCustomerId := t.nextCustomerId + 1))
  {
  }

  /** An update of an existing row the unique index lets through keeps the tables well formed. */
  lemma UpdateKeepsWellFormed(t: Tables, id: int, row: Customer)
    requires WellFormed(t) && id in t.customers && !EmailTaken(t.customers, row.email, id)
    ensures WellFormed(t.(customers := t.customers[id := row]))
  {
  }

  /** Deleting a customer no sale refers to keeps the tables well formed. */
  lemma DeleteKeepsWellFormed(t: Tables, id: int)
    requires WellFormed(t) && !CustomerReferenced(t.sales, id)
    ensures WellFormed(t.(customers := t.customers - {id}))
  {
    forall i | 0 <= i < |t.sales| && t.sales[i].customerId.Some?
      ensures t.sales[i].customerId.value in t.customers - {id}
    {
    }
  }

  // ---------------------------------------------------------------------------
  // The controller
  // ---------------------------------------------------------------------------

  /** `GET /customers/:id`. */
  function GetCustomerById(customers: map<int, Customer>, id: int): (r: CustomerReply)
    ensures r.Found? <==> id in customers
    ensures r.Found? ==> r == Found(id, customers[id])
    ensures !r.Found? ==> r == Failed(404, NotFoundMessage)
  {
    if id in customers then Found(id, customers[id]) else Failed(404, NotFoundMessage)
  }

  /** `POST /customers`. */
  method CreateCustomer(db: Store, body: CustomerBody) returns (reply: CustomerReply)
    requires db.Valid()
    modifies db
    ensures db.Valid()
    ensures Falsy(body.name) ==>
      reply == Failed(400, NameRequiredMessage) && db.Snapshot() == old(db.Snapshot())
    ensures !Falsy(body.name) && BadEmail(body.email) ==>
      reply == Failed(400, InvalidEmailMessage) && db.Snapshot() == old(db.Snapshot())
    ensures !Falsy(body.name) && !BadEmail(body.email)
            && EmailTaken(old(db.customers), OrNull(body.email), old(db.nextCustomerId)) ==>
      reply == Failed(409, EmailExistsMessage) && db.Snapshot() == old(db.Snapshot())
    ensures !Falsy(body.name) && !BadEmail(body.email)
            && !EmailTaken(old(db.customers), OrNull(body.email), old(db.nextCustomerId)) ==>
      var id := old(db.nextCustomerId);
      && id !in old(db.customers)
      && reply == Created(id, body)
      && db.Snapshot() == old(db.Snapshot()).(customers := old(db.customers)[id := NewCustomer(body)], nextCustomerId := id + 1)
  {
    if Falsy(body.name) {
      return Failed(400, NameRequiredMessage);
    }
    if !Falsy(body.email) && !LooksLikeEmail(body.email.value) {
      return Failed(400, InvalidEmailMessage);
    }
    var id := db.nextCustomerId;
    var row := NewCustomer(body);
    if EmailTaken(db.customers, row.email, id) {
      return Failed(409, EmailExistsMessage);
    }
    InsertKeepsWellFormed(db.Snapshot(), row);
    db.customers := db.customers[id := row];
    db.nextCustomerId := id + 1;
    reply := Created(id, body);
  }

  /** The update's descriptor, field by field: each defined field is copied, a contact
      field through `|| null`, and a present e-mail failing the format test stops the
      build. */
  method BuildFields(body: CustomerBody) returns (fields: Option<CustomerFields>)
    ensures fields.None? <==> BadEmail(body.email)
    ensures fields.Some? ==> fields.value == FieldsToUpdate(body)
  {
    var f := NoFields;
    if body.name.Some? {
      f := f.(name := body.name);
    }
    if body.email.Some? {
      if !Falsy(body.email) && !LooksLikeEmail(body.email.value) {
        return None;
      }
      f := f.(email := Some(OrNull(body.email)));
    }
    if body.phone.Some? {
      f := f.(phone := Some(OrNull(body.phone)));
    }
    if body.address.Some? {
      f := f.(address := Some(OrNull(body.address)));
    }
    return Some(f);
  }

  /** `PUT /customers/:id`. The e-mail format is checked while the descriptor is
      built, so an invalid e-mail is a 400 even for an unknown id; the empty
      descriptor and an empty name are refused next; only then is the row looked up. */
  method UpdateCustomer(db: Store, id: int, body: CustomerBody) returns (reply: CustomerReply)
    requires db.Valid()
    modifies db
    ensures db.Valid()
    ensures BadEmail(body.email) ==>
      reply == Failed(400, InvalidEmailMessage) && db.Snapshot() == old(db.Snapshot())
    ensures !BadEmail(body.email) && body == NoBody ==>
      reply == Failed(400, NoFieldsMessage) && db.Snapshot() == old(db.Snapshot())
    ensures !BadEmail(body.email) && body != NoBody && body.name == Some("") ==>
      reply == Failed(400, EmptyNameMessage) && db.Snapshot() == old(db.Snapshot())
    ensures !BadEmail(body.email) && body != NoBody && body.name != Some("") && id !in old(db.customers) ==>
      reply == Failed(404, NotFoundMessage) && db.Snapshot() == old(db.Snapshot())
    ensures !BadEmail(body.email) && body != NoBody && body.name != Some("") && id in old(db.customers) ==>
      var row := ApplyFields(old(db.customers)[id], FieldsToUpdate(body));
      if EmailTaken(old(db.customers), row.email, id) then
        reply == Failed(409, EmailExistsForOtherMessage) && db.Snapshot() == old(db.Snapshot())
      else
        reply == Found(id, row) && db.Snapshot() == old(db.Snapshot()).(customers := old(db.customers)[id := row])
  {
    var built := BuildFields(body);
    if built.None? {
      return Failed(400, InvalidEmailMessage);
    }
    var fields := built.value;
    if fields == NoFields {
      return Failed(400, NoFieldsMessage);
    }
    if fields.name == Some("") {
      return Failed(400, EmptyNameMessage);
    }
    if id !in db.customers {
      return Failed(404, NotFoundMessage);
    }
    var row := ApplyFields(db.customers[id], fields);
    if EmailTaken(db.customers, row.email, id) {
      return Failed(409, EmailExistsForOtherMessage);
    }
    UpdateKeepsWellFormed(db.Snapshot(), id, row);
    db.customers := db.customers[id := row];
    reply := Found(id, row);
  }

  /** `DELETE /customers/:id`: the row is removed, unless it is absent (404) or a sale
      still refers to it, which the foreign key refuses (500). */
  method DeleteCustomer(db: Store, id: int) returns (reply: CustomerReply)
    requires db.Valid()
    modifies db
    ensures db.Valid()
    ensures id !in old(db.customers) ==>
      reply == Failed(404, NotFoundMessage) && db.Snapshot() == old(db.Snapshot())
    ensures id in old(db.customers) && CustomerReferenced(old(db.sales), id) ==>
      reply == Failed(500, DeleteErrorMessage) && db.Snapshot() == old(db.Snapshot())
    ensures id in old(db.customers) && !CustomerReferenced(old(db.sales), id) ==>
      reply == NoContent && db.Snapshot() == old(db.Snapshot()).(customers := old(db.customers) - {id})
  {
    if id !in db.customers {
      return Failed(404, NotFoundMessage);
    }
    if CustomerReferenced(db.sales, id) {
      return Failed(500, DeleteErrorMessage);
    }
    DeleteKeepsWellFormed(db.Snapshot(), id);
    db.customers := db.customers - {id};
    reply := NoContent;
  }
}
