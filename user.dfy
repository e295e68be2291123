/**
 * The `User` entity: its fields, their getters and setters, the role
 * normalisation it reports, and the owned side of its many-to-many relation
 * with `Customer`.
 */
module Entity {
  import opened Sequences
  import Roles
  import Collection

  /** A PHP nullable value. */
  datatype Option<T> = None | Some(value: T)

  /** A date and time as the clock gave it; nothing here looks inside. */
  datatype Timestamp = Timestamp(instant: int)

  /** The other side of the relation; only its identity matters to `User`. */
  class Customer {
  }

  /** A call a user made into a customer, with itself as the argument. */
  datatype Call = AddUser(customer: Customer) | RemoveUser(customer: Customer)

  class User {
    var id: Option<int>
    var email: Option<string>
    var roles: seq<string>
    var firstname: Option<string>
    var lastname: Option<string>
    var createdAt: Timestamp
    var updatedAt: Timestamp
    var customers: seq<Customer>
    /** Every `Customer::addUser` / `Customer::removeUser` call this user made, in order. */
    ghost var calls: seq<Call>

    /** The customer collection holds each customer at most once. */
    ghost predicate Valid()
      reads this
    {
      NoDup(customers)
    }

    /**
     * A fresh user: no id, no email, names or roles, no customers. The clock
     * is read twice, once for each timestamp.
     */
    constructor (created: Timestamp, updated: Timestamp)
      ensures Valid()
      ensures id == None && email == None && roles == []
      ensures firstname == None && lastname == None
      ensures createdAt == created && updatedAt == updated
      ensures customers == [] && calls == []
    {
      id := None;
      email := None;
      roles := [];
      firstname := None;
      lastname := None;
      createdAt := created;
      updatedAt := updated;
      customers := [];
      calls := [];
    }

    function GetId(): Option<int>
      reads this
    {
      id
    }

    function GetEmail(): Option<string>
      reads this
    {
      email
    }

    /** Store `email`; nothing else changes and the user itself is returned. */
    method SetEmail(email: string) returns (self: User)
      modifies this`email
      ensures self == this && this.email == Some(email)
      ensures UserIdentifier() == email
    {
      this.email := Some(email);
      self := this;
    }

    /** The visual identifier: the email, or the empty string (a null cast to string) when none is set. */
    function UserIdentifier(): (r: string)
      reads this
      ensures email.Some? ==> r == email.value
      ensures email.None? ==> r == ""
    {
      match email
      case Some(e) => e
      case None => ""
    }

    /**
     * The roles the user reports: every stored role and the base role, each
     * exactly once, in first-occurrence order, with their PHP keys.
     */
    function GetRoles(): (r: seq<Roles.Slot>)
      reads this
      ensures Roles.BaseRole in Roles.Values(r)
      ensures NoDup(Roles.Values(r))
      ensures forall x :: x in Roles.Values(r) <==> x in roles || x == Roles.BaseRole
      ensures NoDup(roles) ==> Roles.IsList(r)
    {
      Roles.GetRolesHasBaseRoleOnce(roles);
      Roles.GetRolesMembers(roles);
      Roles.GetRolesListWhenDistinct(roles);
      Roles.GetRolesOf(roles)
    }

    /** Replace the stored role list wholesale; nothing else changes. */
    method SetRoles(roles: seq<string>) returns (self: User)
      modifies this`roles
      ensures self == this && this.roles == roles
    {
      this.roles := roles;
      self := this;
    }

    /** No temporary credentials are held, so there is nothing to erase. */
    method EraseCredentials()
    {
    }

    function GetFirstname(): Option<string>
      reads this
    {
      firstname
    }

    /** Store `firstname`; nothing else changes. */
    method SetFirstname(firstname: string) returns (self: User)
      modifies this`firstname
      ensures self == this && this.firstname == Some(firstname)
    {
      this.firstname := Some(firstname);
      self := this;
    }

    function GetLastname(): Option<string>
      reads this
    {
      lastname
    }

    /** Store `lastname`; nothing else changes. */
    method SetLastname(lastname: string) returns (self: User)
      modifies this`lastname
      ensures self == this && this.lastname == Some(lastname)
    {
      this.lastname := Some(lastname);
      self := this;
    }

    function GetCreatedAt(): Timestamp
      reads this
    {
      createdAt
    }

    /** Store `createdAt`; nothing else changes. */
    method SetCreatedAt(createdAt: Timestamp) returns (self: User)
      modifies this`createdAt
      ensures self == this && this.createdAt == createdAt
    {
      this.createdAt := createdAt;
      self := this;
    }

    function GetUpdatedAt(): Timestamp
      reads this
    {
      updatedAt
    }

    /** Store `updatedAt`; nothing else changes. */
    method SetUpdatedAt(updatedAt: Timestamp) returns (self: User)
      modifies this`updatedAt
      ensures self == this && this.updatedAt == updatedAt
    {
      this.updatedAt := updatedAt;
      self := this;
    }

    function GetCustomers(): seq<Customer>
      reads this
    {
      customers
    }

    /**
     * Link `customer`. Afterwards it is in the collection; if it already was,
     * nothing changes and no call is made, otherwise it is appended once and
     * `customer.addUser(this)` is called once. No duplicate is introduced.
     */
    method AddCustomer(customer: Customer) returns (self: User)
      modifies this`customers, this`calls
      ensures self == this && customer in customers
      ensures customers == Collection.Added(old(customers), customer)
      ensures calls == old(calls) + (if customer in old(customers) then [] else [AddUser(customer)])
      ensures old(Valid()) ==> Valid()
    {
      if Valid() {
        Collection.AddedKeepsNoDup(customers, customer);
      }
      if customer !in customers {
        customers := customers + [customer];
        calls := calls + [AddUser(customer)];
      }
      self := this;
    }

    /**
     * Unlink `customer`: its first occurrence is taken out and, only when one
     * was there, `customer.removeUser(this)` is called. On a valid user the
     * customer is then absent, and every other customer is still there, in the
     * same order.
     */
    method RemoveCustomer(customer: Customer) returns (self: User)
      modifies this`customers, this`calls
      ensures self == this
      ensures customers == Collection.Removed(old(customers), customer)
      ensures calls == old(calls) + (if customer in old(customers) then [RemoveUser(customer)] else [])
      ensures old(Valid()) ==> Valid() && customer !in customers
    {
      if Valid() {
        Collection.RemovedKeepsNoDup(customers, customer);
        Collection.RemovedMembers(customers, customer);
      }
      var removed := customer in customers;
      customers := Collection.Removed(customers, customer);
      if removed {
        calls := calls + [RemoveUser(customer)];
      }
      self := this;
    }
  }

  /**
   * A caller's view: adding a customer twice is adding it once, and removing
   * it afterwards restores the collection and logs one call each way.
   */
  method AddTwiceThenRemove(user: User, customer: Customer)
    requires user.Valid() && customer !in user.customers
    modifies user`customers, user`calls
    ensures user.Valid() && user.customers == old(user.customers)
    ensures user.calls == old(user.calls) + [AddUser(customer), RemoveUser(customer)]
  {
    var u := user.AddCustomer(customer);
    u := user.AddCustomer(customer);
    u := user.RemoveCustomer(customer);
    Collection.RemoveUndoesAdd(old(user.customers), customer);
  }
}
