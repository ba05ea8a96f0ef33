/**
 * JavaScript object literals such as `{ slug, ...data, content }` or
 * `{ message: a, message: b }`: members are applied left to right, so a
 * key written later (as a property or inside a spread) overrides an
 * earlier one.
 */
module JsObject {

  /** One member of an object literal: `key: value` or `...fields`. */
  datatype Member<V> = Property(key: string, value: V) | Spread(fields: map<string, V>)
  {
    /** The member writes `k`. */
    predicate Writes(k: string)
    {
      match this
      case Property(key, _) => key == k
      case Spread(fields) => k in fields
    }

    /** The value this member writes for `k`. */
    function ValueFor(k: string): V
      requires Writes(k)
    {
      match this
      case Property(_, value) => value
      case Spread(fields) => fields[k]
    }
  }

  /** Some member of `members` writes `k`. */
  predicate Mentioned<V>(members: seq<Member<V>>, k: string)
  {
    exists i :: 0 <= i < |members| && members[i].Writes(k)
  }

  /** The object an object literal with these members evaluates to. */
  function Literal<V>(members: seq<Member<V>>): (obj: map<string, V>)
    ensures forall k :: k in obj <==> Mentioned(members, k)
  {
    if members == [] then map[]
    else
      var init := members[..|members| - 1];
      var obj := Literal(init);
      assert forall i :: 0 <= i < |init| ==> init[i] == members[i];
      match members[|members| - 1]
      case Property(key, value) => obj[key := value]
      case Spread(fields) => obj + fields
  }

  /** Later members win: the value of `k` is what the last member writing `k` wrote. */
  lemma {:induction false} LiteralLastWins<V>(members: seq<Member<V>>, i: nat, k: string)
    requires i < |members| && members[i].Writes(k)
    requires forall j :: i < j < |members| ==> !members[j].Writes(k)
    ensures k in Literal(members) && Literal(members)[k] == members[i].ValueFor(k)
  {
    var n := |members| - 1;
    var init := members[..n];
    if i < n {
      assert !members[n].Writes(k);
      LiteralLastWins(init, i, k);
    }
  }
}
