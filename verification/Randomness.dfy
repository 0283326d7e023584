/** The random generators behind refresh tokens, family ids and bcrypt salts: what they draw
    was never drawn before. */
module Randomness {
  lemma {:induction false} UnusedId(ids: set<nat>) returns (id: nat)
    ensures id !in ids && forall x | x in ids :: x < id
  {
    if ids == {} {
      id := 0;
    } else {
      var x :| x in ids;
      var y := UnusedId(ids - {x});
      id := if y <= x then x + 1 else y;
      forall z | z in ids ensures z < id {
        if z != x { assert z in ids - {x}; }
      }
    }
  }

  method Draw(used: set<nat>) returns (id: nat)
    ensures id !in used
  {
    ghost var unused := UnusedId(used);
    id :| id !in used;
  }
}
