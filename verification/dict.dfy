/**
 Building a Python `dict` by assigning key/value pairs one after another:
 `d = {}; for k, v in pairs: d[k] = v`. The same fold underlies `dict(zip(..))`,
 a dict comprehension, the login-form field map and the cookie dictionaries.
 */
module Dict {

  type Pairs = seq<(string, string)>

  /** The keys named by the pairs. */
  function Names(ps: Pairs): set<string>
  {
    set i | 0 <= i < |ps| :: ps[i].0
  }

  /** Pair `i` is the last one with its key. */
  ghost predicate LastFor(ps: Pairs, i: int)
  {
    0 <= i < |ps| && forall j :: i < j < |ps| ==> ps[j].0 != ps[i].0
  }

  /** The dictionary obtained by assigning the pairs in order. */
  function FromPairs(ps: Pairs): map<string, string>
  {
    if |ps| == 0 then map[]
    else FromPairs(ps[..|ps| - 1])[ps[|ps| - 1].0 := ps[|ps| - 1].1]
  }

  /** Adding one more pair adds its key to the names. */
  lemma NamesSnoc(ps: Pairs)
    requires |ps| > 0
    ensures Names(ps) == Names(ps[..|ps| - 1]) + {ps[|ps| - 1].0}
  {
  }

  /** The dictionary's keys are exactly the keys named by the pairs. */
  lemma {:induction false} FromPairsKeys(ps: Pairs)
    ensures FromPairs(ps).Keys == Names(ps)
  {
    if |ps| > 0 {
      FromPairsKeys(ps[..|ps| - 1]);
      NamesSnoc(ps);
    }
  }

  /** Each key holds the value of the last pair naming it: later pairs overwrite earlier ones. */
  lemma {:induction false} FromPairsLast(ps: Pairs, i: int)
    requires LastFor(ps, i)
    ensures ps[i].0 in FromPairs(ps) && FromPairs(ps)[ps[i].0] == ps[i].1
  {
    if i < |ps| - 1 {
      var init := ps[..|ps| - 1];
      assert init[i] == ps[i];
      assert LastFor(init, i);
      FromPairsLast(init, i);
    }
  }

  /** A dictionary never has more keys than there were pairs. */
  lemma {:induction false} FromPairsSize(ps: Pairs)
    ensures |FromPairs(ps)| <= |ps|
  {
    if |ps| > 0 {
      var init := ps[..|ps| - 1];
      FromPairsSize(init);
      FromPairsKeys(ps);
      FromPairsKeys(init);
      NamesSnoc(ps);
      var m := FromPairs(init);
      assert FromPairs(ps).Keys == m.Keys + {ps[|ps| - 1].0};
      assert |FromPairs(ps).Keys| <= |m.Keys| + 1;
    }
  }

  /** With pairwise distinct keys nothing is overwritten: one key per pair. */
  lemma {:induction false} FromPairsDistinctSize(ps: Pairs)
    requires forall i, j :: 0 <= i < j < |ps| ==> ps[i].0 != ps[j].0
    ensures |FromPairs(ps)| == |ps|
  {
    if |ps| > 0 {
      var init := ps[..|ps| - 1];
      var last := ps[|ps| - 1];
      FromPairsDistinctSize(init);
      FromPairsKeys(ps);
      FromPairsKeys(init);
      NamesSnoc(ps);
      var m := FromPairs(init);
      assert last.0 !in Names(init);
      assert FromPairs(ps).Keys == m.Keys + {last.0};
    }
  }
}
