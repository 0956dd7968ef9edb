/**
 The secondary indexes of the rule registry (waf-engine/src/rules/registry.rs):
 for each category and each source the ids of its rules.
 */
module RuleIndex {
  import opened Basics

  datatype Rule = Rule(id: string, category: string, source: string, body: string)

  type Rules = map<string, Rule>

  type Index = map<string, seq<string>>

  function CategoryOf(r: Rule): string {
    r.category
  }

  function SourceOf(r: Rule): string {
    r.source
  }

  /** `ids.retain(|x| x != id)` */
  function Retained(ids: seq<string>, id: string): seq<string> {
    if ids == [] then [] else if ids[0] == id then Retained(ids[1..], id) else [ids[0]] + Retained(ids[1..], id)
  }

  /** `remove_index` on one of the two maps. */
  function Unlisted(ix: Index, id: string): Index {
    map k | k in ix :: Retained(ix[k], id)
  }

  function Entry(ix: Index, key: string): seq<string> {
    if key in ix then ix[key] else []
  }

  /** `entry(key).or_default().push(id)` */
  function Listed(ix: Index, key: string, id: string): Index {
    ix[key := Entry(ix, key) + [id]]
  }

  /** The index lists under each key exactly the rules with that key, once each. */
  ghost predicate IsIndex(ix: Index, rules: Rules, keyOf: Rule -> string) {
    forall key: string :: Exact(ix, rules, keyOf, key)
  }

  ghost predicate Exact(ix: Index, rules: Rules, keyOf: Rule -> string, key: string) {
    NoDup(Entry(ix, key)) && forall id: string :: id in Entry(ix, key) <==> id in rules && keyOf(rules[id]) == key
  }

  lemma {:induction false} RetainedIs(ids: seq<string>, id: string)
    ensures forall x :: x in Retained(ids, id) <==> x in ids && x != id
    ensures NoDup(ids) ==> NoDup(Retained(ids, id))
    decreases |ids|
  {
    if ids != [] {
      RetainedIs(ids[1..], id);
      assert ids == [ids[0]] + ids[1..];
      if NoDup(ids) {
        assert ids[0] !in ids[1..];
        assert NoDup(ids[1..]);
      }
    }
  }

  lemma UnlistedIs(ix: Index, id: string, key: string)
    ensures forall x :: x in Entry(Unlisted(ix, id), key) <==> x in Entry(ix, key) && x != id
    ensures NoDup(Entry(ix, key)) ==> NoDup(Entry(Unlisted(ix, id), key))
  {
    if key in ix {
      RetainedIs(ix[key], id);
    }
  }

  /** Removing a rule from the index and the registry. */
  lemma RemoveKeepsIndex(ix: Index, rules: Rules, keyOf: Rule -> string, id: string)
    requires IsIndex(ix, rules, keyOf)
    ensures IsIndex(Unlisted(ix, id), rules - {id}, keyOf)
  {
    forall key: string ensures Exact(Unlisted(ix, id), rules - {id}, keyOf, key) {
      assert Exact(ix, rules, keyOf, key);
      UnlistedIs(ix, id, key);
    }
  }

  /** Adding a rule whose id is not there. */
  lemma AddKeepsIndex(ix: Index, rules: Rules, keyOf: Rule -> string, r: Rule)
    requires IsIndex(ix, rules, keyOf) && r.id !in rules
    ensures IsIndex(Listed(ix, keyOf(r), r.id), rules[r.id := r], keyOf)
  {
    var ix', rules' := Listed(ix, keyOf(r), r.id), rules[r.id := r];
    forall key: string ensures Exact(ix', rules', keyOf, key) {
      assert Exact(ix, rules, keyOf, key);
    }
  }

  /** `insert`: unlist the id if it was there, then list it under its new key. */
  function Relisted(ix: Index, rules: Rules, key: string, id: string): Index {
    Listed(if id in rules then Unlisted(ix, id) else ix, key, id)
  }

  lemma InsertKeepsIndex(ix: Index, rules: Rules, keyOf: Rule -> string, r: Rule)
    requires IsIndex(ix, rules, keyOf)
    ensures IsIndex(Relisted(ix, rules, keyOf(r), r.id), rules[r.id := r], keyOf)
  {
    if r.id in rules {
      RemoveKeepsIndex(ix, rules, keyOf, r.id);
      AddKeepsIndex(Unlisted(ix, r.id), rules - {r.id}, keyOf, r);
      assert (rules - {r.id})[r.id := r] == rules[r.id := r];
    } else {
      AddKeepsIndex(ix, rules, keyOf, r);
    }
  }
}
