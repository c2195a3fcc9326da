/** The key families that share the store, and why they never meet. */
module Keys {
  const SESSION := "session:v1:"
  const USER_SESSIONS := "user-sessions:v1:"
  const FAIL_USER := "loginfail:v1:user:"
  const FAIL_IP := "loginfail:v1:ip:"
  const LOCK_USER := "lock:login:v1:user:"
  const LOCK_IP := "lock:login:v1:ip:"
  const RATE_LIMIT := "ratelimit:v1:"
  const RESET := "pwreset:v1:"

  const FAMILIES: seq<string> :=
    [SESSION, USER_SESSIONS, FAIL_USER, FAIL_IP, LOCK_USER, LOCK_IP, RATE_LIMIT, RESET]

  /** Where two family prefixes first differ. */
  function Differs(i: nat, j: nat): nat
    requires i < 8 && j < 8
  {
    if i in {2, 3} && j in {2, 3} then 13
    else if i in {4, 5} && j in {4, 5} then 14
    else if i in {2, 3, 4, 5} && j in {2, 3, 4, 5} then 2
    else 0
  }

  lemma {:induction false} FamiliesAreDisjoint(i: nat, j: nat, x: string, y: string)
    requires i < 8 && j < 8 && i != j
    ensures FAMILIES[i] + x != FAMILIES[j] + y
  {
    var d := Differs(i, j);
    assert d < |FAMILIES[i]| && d < |FAMILIES[j]| && FAMILIES[i][d] != FAMILIES[j][d];
    assert (FAMILIES[i] + x)[d] == FAMILIES[i][d] && (FAMILIES[j] + y)[d] == FAMILIES[j][d];
  }

  lemma {:induction false} SuffixIsRecovered(prefix: string, x: string, y: string)
    requires prefix + x == prefix + y
    ensures x == y
  {
    assert x == (prefix + x)[|prefix|..] && y == (prefix + y)[|prefix|..];
  }
}
