/**
 * The signed-token collaborator, abstracted. Signing and verification are
 * done by a JSON Web Token library under a server secret; the model only
 * sees what they return.
 */
module Tokens {
  import opened Wrappers

  /**
   * The claims a token carries: the user's database id and username. A payload
   * without a username is represented with username "" (both are falsy).
   */
  datatype Identity = Identity(id: nat, username: string)

  /** verifyToken: the decoded claims, or None when verification throws. */
  type Verifier = string -> Option<Identity>

  /** signToken: the token string issued for a set of claims. */
  type Signer = Identity -> string
}
