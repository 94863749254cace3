/**
 Reverse indexes kept in step with a table: from a key to the set of members filed
 under it, with no empty sets left behind.
 */
module ReverseIndex {

  type Index = map<nat, set<nat>>

  function Bucket(index: Index, key: nat): set<nat> {
    if key in index then index[key] else {}
  }

  function With(index: Index, keys: set<nat>, member: nat): Index {
    map k | k in index.Keys + keys :: if k in keys then Bucket(index, k) + {member} else index[k]
  }

  function Without(index: Index, keys: set<nat>, member: nat): Index {
    map k | k in index && !(k in keys && index[k] - {member} == {}) ::
      if k in keys then index[k] - {member} else index[k]
  }

  ghost predicate NoneEmpty(index: Index) {
    forall k :: k in index ==> index[k] != {}
  }

  method File(before: Index, keys: set<nat>, member: nat) returns (index: Index)
    ensures index == With(before, keys, member)
  {
    index := before;
    var rest := keys;
    while rest != {}
      invariant rest <= keys && index == With(before, keys - rest, member)
      decreases rest
    {
      var key :| key in rest;
      assert keys - (rest - {key}) == keys - rest + {key};
      rest := rest - {key};
      index := index[key := Bucket(index, key) + {member}];
    }
    assert keys - {} == keys;
  }

  method Unfile(before: Index, keys: set<nat>, member: nat) returns (index: Index)
    ensures index == Without(before, keys, member)
  {
    index := before;
    var rest := keys;
    while rest != {}
      invariant rest <= keys && index == Without(before, keys - rest, member)
      decreases rest
    {
      var key :| key in rest;
      assert keys - (rest - {key}) == keys - rest + {key};
      rest := rest - {key};
      if key in index {
        var members := index[key] - {member};
        index := if members == {} then index - {key} else index[key := members];
      }
    }
    assert keys - {} == keys;
  }

  lemma FiledUnder(index: Index, keys: set<nat>, member: nat, key: nat, other: nat)
    ensures other in Bucket(With(index, keys, member), key) <==> other in Bucket(index, key) || (other == member && key in keys)
  {
  }

  lemma StillFiledUnder(index: Index, keys: set<nat>, member: nat, key: nat, other: nat)
    ensures other in Bucket(Without(index, keys, member), key) <==> other in Bucket(index, key) && !(other == member && key in keys)
  {
    if key in index {
      assert other in index[key] <==> (other == member && member in index[key]) || other in index[key] - {member};
    }
  }

  lemma FilingLeavesNoneEmpty(index: Index, keys: set<nat>, member: nat)
    requires NoneEmpty(index)
    ensures NoneEmpty(With(index, keys, member)) && NoneEmpty(Without(index, keys, member))
  {
    var index' := With(index, keys, member);
    forall k | k in index' ensures index'[k] != {} {
      assert k in keys ==> member in index'[k];
    }
  }
}
