/**
 * The contact record of the `contacts` table and the small vocabulary the
 * resolver uses to talk about it.
 */
module Contacts {

  datatype Option<T> = None | Some(value: T)

  /** The two application errors the core raises (`AppError` with its HTTP status). */
  datatype Error = ValidationError | NotFound

  datatype Result<T> = Ok(value: T) | Err(error: Error)

  function Status(e: Error): nat
  {
    match e
    case ValidationError => 400
    case NotFound => 404
  }

  /** `link_precedence`, constrained by the table to these two values. */
  datatype Precedence = Primary | Secondary

  /** A nullable text column or request field; `""`, `null` and `undefined` are all falsy. */
  type Field = Option<string>

  /** JavaScript truthiness of a field: present and not the empty string. */
  predicate Given(f: Field)
  {
    f.Some? && f.value != ""
  }

  /** `value || null`, as `createContact` stores an identifier. */
  function Normalize(f: Field): Field
  {
    if Given(f) then f else None
  }

  /**
   * One row: `id SERIAL`, `phone_number`, `email`, `linked_id`,
   * `link_precedence`, `created_at` (a counter here) and `deleted_at`.
   * `updated_at` is written but never read, so it is not kept.
   */
  datatype Contact = Contact(
    id: nat,
    phone: Field,
    email: Field,
    linkedId: Option<nat>,
    precedence: Precedence,
    createdAt: nat,
    deletedAt: Option<nat>)

  /** Not soft-deleted. */
  predicate Live(c: Contact)
  {
    c.deletedAt.None?
  }

  /** The id a record is grouped under: its own id when primary, else its `linked_id`, else its own id. */
  function EffectiveKey(c: Contact): nat
  {
    if c.precedence == Primary then c.id
    else if c.linkedId.Some? then c.linkedId.value
    else c.id
  }

  /**
   * The grouping loop's key: it tests `linked_id` for JavaScript truthiness,
   * so a `linked_id` of 0 counts as absent there, unlike in the SQL's
   * `IS NOT NULL`.
   */
  function GroupKey(c: Contact): nat
  {
    if c.precedence == Primary then c.id
    else if c.linkedId.Some? && c.linkedId.value != 0 then c.linkedId.value
    else c.id
  }

  /** `updateLinkPrecedence(c.id, 'secondary', f)` applied to a copy of the row. */
  function Link(c: Contact, f: nat): Contact
  {
    c.(precedence := Secondary, linkedId := Some(f))
  }

  /** Already a secondary of `f`. */
  predicate LinkedTo(c: Contact, f: nat)
  {
    c.precedence == Secondary && c.linkedId == Some(f)
  }

  function Ids(s: seq<Contact>): (ids: seq<nat>)
    ensures |ids| == |s|
    ensures forall i :: 0 <= i < |s| ==> ids[i] == s[i].id
  {
    seq(|s|, i requires 0 <= i < |s| => s[i].id)
  }

  function IdSet(s: seq<Contact>): set<nat>
  {
    set c | c in s :: c.id
  }
}
