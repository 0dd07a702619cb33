/**
  The user rows that sign-up writes and the credentials provider reads: an id,
  an email, a password hash and a username. Rows are kept in creation order;
  `findUnique` by email returns the one row with that email.
 */
module Accounts {
  import opened Common

  datatype Account = Account(
    id: string,
    email: Option<string>,
    password: Option<string>,
    username: Option<string>,
    createdAt: int)

  /** The unique index on `email`. */
  ghost predicate EmailsUnique(accounts: seq<Account>) {
    forall i, j :: 0 <= i < j < |accounts| && accounts[i].email.Some? ==> accounts[i].email != accounts[j].email
  }

  predicate IdUsed(accounts: seq<Account>, id: string) {
    exists i :: 0 <= i < |accounts| && accounts[i].id == id
  }

  /** `findUnique({ where: { email } })`. */
  function FindByEmail(accounts: seq<Account>, email: string): (r: Option<Account>)
    ensures r.Some? ==> r.value in accounts && r.value.email == Some(email)
    ensures r.None? <==> forall i :: 0 <= i < |accounts| ==> accounts[i].email != Some(email)
    decreases |accounts|
  {
    if |accounts| == 0 then None
    else if accounts[0].email == Some(email) then Some(accounts[0])
    else
      var r := FindByEmail(accounts[1..], email);
      assert forall i :: 1 <= i < |accounts| ==> accounts[i] == accounts[1..][i - 1];
      r
  }

  /** With unique emails the row found is the one row with that email. */
  lemma {:induction false} FindByEmailUnique(accounts: seq<Account>, email: string, k: nat)
    requires EmailsUnique(accounts)
    requires k < |accounts| && accounts[k].email == Some(email)
    ensures FindByEmail(accounts, email) == Some(accounts[k])
    decreases |accounts|
  {
    if k > 0 {
      assert accounts[0].email != Some(email);
      var rest := accounts[1..];
      assert EmailsUnique(rest) by {
        forall i, j | 0 <= i < j < |rest| && rest[i].email.Some?
          ensures rest[i].email != rest[j].email
        {
          assert rest[i] == accounts[i + 1] && rest[j] == accounts[j + 1];
        }
      }
      assert rest[k - 1] == accounts[k];
      FindByEmailUnique(rest, email, k - 1);
    }
  }
}
