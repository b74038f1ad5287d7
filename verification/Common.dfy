/** What several parts of the model share. */
module Common {
  datatype Option<T> = None | Some(value: T)

  /** Machine words count modulo 2^64. */
  const WORD: nat := 0x1_0000_0000_0000_0000

  /** There is always an address beyond those in use. */
  lemma {:induction false} FreshAddress(s: set<nat>) returns (p: nat)
    ensures p != 0 && forall x :: x in s ==> x < p
  {
    if s == {} {
      p := 1;
    } else {
      var y :| y in s;
      var p' := FreshAddress(s - {y});
      p := if y < p' then p' else y + 1;
      forall x | x in s ensures x < p {
        if x != y {
          assert x in s - {y};
        }
      }
    }
  }
}
