/**
 * The user table that `verify` queries and updates. A row holds the columns the
 * source reads or writes (`verify_token`, `verified`) beside the ones it leaves
 * alone. Rows are kept in the order the query's `first()` returns them.
 */
module Users {
  import opened Wrappers
  import Collections

  datatype UserRow = UserRow(
    name: string,
    email: string,
    password: string,
    verifyToken: Option<int>,   // a NULL column is None
    verified: int)

  predicate Unverified(u: UserRow)
  {
    u.verified == 0
  }

  /** `where('verify_token', pin)->where('verified', 0)` holds of this row. */
  predicate AwaitsPin(u: UserRow, pin: int)
  {
    u.verifyToken == Some(pin) && Unverified(u)
  }

  /** The position of the row `->first()` returns, or None when the query is empty. */
  function FirstAwaiting(rows: seq<UserRow>, pin: int): (r: Option<nat>)
    ensures r.Some? ==> r.value < |rows| && AwaitsPin(rows[r.value], pin)
    ensures r.Some? ==> forall j :: 0 <= j < r.value ==> !AwaitsPin(rows[j], pin)
    ensures r.None? <==> forall j :: 0 <= j < |rows| ==> !AwaitsPin(rows[j], pin)
  {
    Collections.FirstIndex(rows, u => AwaitsPin(u, pin))
  }

  function CountUnverified(rows: seq<UserRow>): nat
  {
    if |rows| == 0 then 0
    else (if Unverified(rows[0]) then 1 else 0) + CountUnverified(rows[1..])
  }

  /** Replacing one row changes the number of unverified rows only by that row's contribution. */
  lemma {:induction false} CountUnverifiedUpdate(rows: seq<UserRow>, i: nat, u: UserRow)
    requires i < |rows|
    ensures CountUnverified(rows[i := u])
         == CountUnverified(rows) - (if Unverified(rows[i]) then 1 else 0) + (if Unverified(u) then 1 else 0)
  {
    if i > 0 {
      assert rows[i := u][1..] == rows[1..][i - 1 := u];
      CountUnverifiedUpdate(rows[1..], i - 1, u);
    }
  }

  /** A loaded user model: a copy of one row's attributes, edited in place and then saved. */
  class UserModel {
    const key: nat
    var name: string
    var email: string
    var password: string
    var verifyToken: Option<int>
    var verified: int

    constructor Load(key: nat, row: UserRow)
      ensures this.key == key && Attributes() == row
    {
      this.key := key;
      name, email, password := row.name, row.email, row.password;
      verifyToken, verified := row.verifyToken, row.verified;
    }

    function Attributes(): UserRow
      reads this
    {
      UserRow(name, email, password, verifyToken, verified)
    }
  }

  class UserTable {
    var rows: seq<UserRow>

    constructor (rows: seq<UserRow>)
      ensures this.rows == rows
    {
      this.rows := rows;
    }

    /** `User::where('verify_token', pin)->where('verified', 0)->first()` */
    method FirstAwaitingPin(pin: int) returns (user: UserModel?)
      ensures user == null <==> FirstAwaiting(rows, pin).None?
      ensures user != null ==>
        fresh(user) && FirstAwaiting(rows, pin) == Some(user.key) && user.Attributes() == rows[user.key]
    {
      var found := FirstAwaiting(rows, pin);
      if found.None? {
        user := null;
      } else {
        user := new UserModel.Load(found.value, rows[found.value]);
      }
    }

    /** `$user->save()`: the model's attributes replace its row; no other row changes. */
    method Save(user: UserModel)
      requires user.key < |rows|
      modifies this
      ensures rows == old(rows)[user.key := user.Attributes()]
    {
      rows := rows[user.key := user.Attributes()];
    }
  }
}
