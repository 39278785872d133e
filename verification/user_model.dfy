/** The fields of a user document that the authentication flow reads and
    writes. The user schema itself (its validators and unique index) is not
    part of this model; where a save can fail, its verdict is a parameter. */
module UserModel {

  import opened Js

  datatype User = User(
    id: Id,
    username: string,
    password: string,
    twoFactorSecret: Option<string>,
    isMfaActive: bool)

  /** The two MFA fields agree: MFA is active exactly when a secret is set. */
  predicate MfaConsistent(u: User) {
    u.isMfaActive <==> TruthyStr(u.twoFactorSecret)
  }

  /** Every stored user is kept under its own id and has consistent MFA fields. */
  predicate UsersValid(users: map<Id, User>) {
    forall k :: k in users ==> users[k].id == k && MfaConsistent(users[k])
  }
}
