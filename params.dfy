/**
 * The query-parameter update rules of pkg/proxy/params/params.go.
 *
 * `url.Values` is a map from key to the list of its values; Go passes it by
 * reference and `UpdateParams` changes it in place, so here it is an object
 * whose one field is that map. Each update is a (key, value) pair whose first
 * character selects the action: `-k` deletes `k`, `+k` appends the value to
 * `k`, any other non-empty key `k` replaces the values of `k` by the one value,
 * and the empty key is skipped. Only that first character is a prefix.
 *
 * The updates come from a Go map, visited in an order the language leaves
 * unspecified; here they are a sequence visited in its order, and the lemmas
 * below say when the order matters.
 */
module Params {

  type Values = map<string, seq<string>>

  /** What one update does once its key has been read. */
  datatype Action =
    | Skip
    | Delete(key: string)
    | Append(key: string, value: string)
    | Replace(key: string, value: string)

  /** Reads the prefix of an update key: only its first character counts. */
  function Classify(k: string, v: string): (a: Action)
    ensures a == Skip <==> k == ""
    ensures a.Delete? ==> k == "-" + a.key
    ensures a.Append? ==> k == "+" + a.key && a.value == v
    ensures a.Replace? ==> k == a.key && a.value == v && k[0] != '-' && k[0] != '+'
  {
    if k == "" then Skip
    else if k[0] == '-' then Delete(k[1..])
    else if k[0] == '+' then Append(k[1..], v)
    else Replace(k, v)
  }

  /** The key an action would be written with: the inverse of Classify on keys. */
  function Spelling(a: Action): string {
    match a
    case Skip => ""
    case Delete(k) => "-" + k
    case Append(k, _) => "+" + k
    case Replace(k, _) => k
  }

  /** An action some update key produces: a replaced key never begins with a prefix. */
  predicate Canonical(a: Action) {
    a.Replace? ==> a.key != "" && a.key[0] != '-' && a.key[0] != '+'
  }

  /** The key an action changes, if any. */
  predicate Touches(a: Action, k: string) {
    !a.Skip? && a.key == k
  }

  /** The values of `k`, or none (a Go nil slice) when `k` is absent. */
  function ValuesOf(q: Values, k: string): seq<string> {
    if k in q then q[k] else []
  }

  /** `url.Values` Del, Add and Set, and doing nothing. */
  function ApplyAction(q: Values, a: Action): (r: Values)
    ensures forall k | k in q && !Touches(a, k) :: k in r && r[k] == q[k]
    ensures forall k | k in r && !Touches(a, k) :: k in q
    ensures a.Delete? ==> a.key !in r
    ensures a.Append? ==> a.key in r && r[a.key] == ValuesOf(q, a.key) + [a.value]
    ensures a.Replace? ==> a.key in r && r[a.key] == [a.value]
  {
    match a
    case Skip => q
    case Delete(k) => q - {k}
    case Append(k, v) => q[k := ValuesOf(q, k) + [v]]
    case Replace(k, v) => q[k := [v]]
  }

  /** The updates applied one after another, in sequence order; a key appears only if some update names it. */
  function ApplyAll(q: Values, updates: seq<(string, string)>): (r: Values)
    ensures updates == [] ==> r == q
    ensures forall k | k in r && k !in q :: !Untouched(updates, k)
    decreases |updates|
  {
    if updates == [] then q
    else
      var init := updates[..|updates| - 1];
      var last := updates[|updates| - 1];
      var r := ApplyAction(ApplyAll(q, init), Classify(last.0, last.1));
      assert forall k | k in r && k !in q :: !Untouched(updates, k) by {
        forall k | k in r && k !in q
          ensures !Untouched(updates, k)
        {
          if !Touches(Classify(last.0, last.1), k) {
            var i :| 0 <= i < |init| && Touches(Classify(init[i].0, init[i].1), k);
            assert init[i] == updates[i];
          }
        }
      }
      r
  }

  /** `url.Values`, a map that is updated in place. */
  class QueryValues {
    var values: Values

    constructor (values: Values)
      ensures this.values == values
    {
      this.values := values;
    }

    /** `Del`: drops the key and all its values. */
    method Del(k: string)
      modifies this
      ensures values == ApplyAction(old(values), Delete(k))
    {
      values := values - {k};
    }

    /** `Add`: appends one value to the key's list, creating the key if absent. */
    method Add(k: string, v: string)
      modifies this
      ensures values == ApplyAction(old(values), Append(k, v))
    {
      if k in values {
        values := values[k := values[k] + [v]];
      } else {
        assert [] + [v] == [v];
        values := values[k := [v]];
      }
    }

    /** `Set`: replaces the key's list by the one value. */
    method Set(k: string, v: string)
      modifies this
      ensures values == ApplyAction(old(values), Replace(k, v))
    {
      values := values[k := [v]];
    }
  }

  /**
   * `UpdateParams`: a missing collection or an empty update list changes
   * nothing; otherwise every update is applied in turn.
   */
  method UpdateParams(params: QueryValues?, updates: seq<(string, string)>)
    modifies params
    ensures params != null ==> params.values == ApplyAll(old(params.values), updates)
    ensures params != null && |updates| == 0 ==> params.values == old(params.values)
  {
    if params == null || |updates| == 0 {
      return;
    }
    for i := 0 to |updates|
      invariant params.values == ApplyAll(old(params.values), updates[..i])
    {
      assert updates[..i + 1][..i] == updates[..i];
      var k, v := updates[i].0, updates[i].1;
      if |k| == 0 {
        continue;
      }
      if k[..1] == "-" {
        k := k[1..];
        params.Del(k);
        continue;
      }
      if k[..1] == "+" {
        k := k[1..];
        params.Add(k, v);
        continue;
      }
      params.Set(k, v);
    }
    assert updates[..|updates|] == updates;
  }

  // ---------------------------------------------------------------------------
  // Properties
  // ---------------------------------------------------------------------------

  /** Classify loses nothing of the key, and reads back every canonical action. */
  lemma ClassifySpelling(k: string, v: string, a: Action)
    ensures Spelling(Classify(k, v)) == k
    ensures Canonical(Classify(k, v))
    ensures Canonical(a) && (a.Append? || a.Replace? ==> a.value == v) ==> Classify(Spelling(a), v) == a
  {
  }

  /**
   * Only the first character is a prefix: `-k` deletes `k` and `+k` appends to
   * `k` whatever `k` begins with, so `--a` deletes `-a` and `++a` appends to `+a`.
   */
  lemma OneCharacterPrefix(k: string, v: string)
    ensures Classify("-" + k, v) == Delete(k)
    ensures Classify("+" + k, v) == Append(k, v)
    ensures Classify("--" + k, v) == Delete("-" + k)
    ensures Classify("++" + k, v) == Append("+" + k, v)
  {
  }

  /** Applying a concatenation is applying its parts one after the other. */
  lemma {:induction false} ApplyAllConcat(q: Values, a: seq<(string, string)>, b: seq<(string, string)>)
    ensures ApplyAll(q, a + b) == ApplyAll(ApplyAll(q, a), b)
    decreases |b|
  {
    if b == [] {
      assert a + b == a;
    } else {
      var last := b[|b| - 1];
      assert (a + b)[..|a + b| - 1] == a + b[..|b| - 1];
      assert (a + b)[|a + b| - 1] == last;
      ApplyAllConcat(q, a, b[..|b| - 1]);
    }
  }

  /** No update of `updates` names `k`, after its prefix is read. */
  predicate Untouched(updates: seq<(string, string)>, k: string) {
    forall i | 0 <= i < |updates| :: !Touches(Classify(updates[i].0, updates[i].1), k)
  }

  /** A key that no update names keeps its values, and stays absent if it was absent. */
  lemma {:induction false} UntouchedKeyKept(q: Values, updates: seq<(string, string)>, k: string)
    requires Untouched(updates, k)
    ensures k in ApplyAll(q, updates) <==> k in q
    ensures k in q ==> ApplyAll(q, updates)[k] == q[k]
    decreases |updates|
  {
    if updates != [] {
      var init := updates[..|updates| - 1];
      assert Untouched(init, k) by {
        forall i | 0 <= i < |init|
          ensures !Touches(Classify(init[i].0, init[i].1), k)
        {
          assert init[i] == updates[i];
        }
      }
      UntouchedKeyKept(q, init, k);
      assert !Touches(Classify(updates[|updates| - 1].0, updates[|updates| - 1].1), k);
    }
  }

  /** The last update that names `k` decides what is left of `k`, whatever came before. */
  lemma LastUpdateDecides(q: Values, before: seq<(string, string)>, k: string, v: string,
                          after: seq<(string, string)>)
    requires Untouched(after, k)
    ensures k !in ApplyAll(q, before + [("-" + k, v)] + after)
    ensures var r := ApplyAll(q, before + [(k, v)] + after);
      k != "" && k[0] != '-' && k[0] != '+' ==> k in r && r[k] == [v]
    ensures var r := ApplyAll(q, before + [("+" + k, v)] + after);
      k in r && r[k] == ValuesOf(ApplyAll(q, before), k) + [v]
  {
    OneCharacterPrefix(k, v);
    var p := ApplyAll(q, before);
    forall u | u in [("-" + k, v), (k, v), ("+" + k, v)]
      ensures ApplyAll(q, before + [u] + after) == ApplyAll(ApplyAction(p, Classify(u.0, u.1)), after)
    {
      ApplyAllConcat(q, before + [u], after);
      ApplyAllConcat(q, before, [u]);
      assert [u][..0] == [];
    }
    UntouchedKeyKept(ApplyAction(p, Classify("-" + k, v)), after, k);
    UntouchedKeyKept(ApplyAction(p, Classify(k, v)), after, k);
    UntouchedKeyKept(ApplyAction(p, Classify("+" + k, v)), after, k);
  }

  /** An update with the empty key has no effect wherever it stands. */
  lemma EmptyKeyIgnored(q: Values, before: seq<(string, string)>, v: string, after: seq<(string, string)>)
    ensures ApplyAll(q, before + [("", v)] + after) == ApplyAll(q, before + after)
  {
    ApplyAllConcat(q, before + [("", v)], after);
    ApplyAllConcat(q, before, [("", v)]);
    ApplyAllConcat(q, before, after);
    assert [("", v)][..0] == [];
  }

  /** Two actions on different keys can be applied in either order. */
  lemma DistinctKeysCommute(q: Values, a: Action, b: Action)
    requires a.Skip? || b.Skip? || a.key != b.key
    ensures ApplyAction(ApplyAction(q, a), b) == ApplyAction(ApplyAction(q, b), a)
  {
    var ab, ba := ApplyAction(ApplyAction(q, a), b), ApplyAction(ApplyAction(q, b), a);
    forall k
      ensures k in ab <==> k in ba
      ensures k in ab ==> ab[k] == ba[k]
    {
      if Touches(a, k) {
        assert !Touches(b, k);
      }
    }
    assert ab.Keys == ba.Keys;
  }

  /** So two adjacent updates that name different keys may be visited in either order. */
  lemma SwapDistinctUpdates(q: Values, before: seq<(string, string)>, x: (string, string), y: (string, string),
                            after: seq<(string, string)>)
    requires var a, b := Classify(x.0, x.1), Classify(y.0, y.1); a.Skip? || b.Skip? || a.key != b.key
    ensures ApplyAll(q, before + [x, y] + after) == ApplyAll(q, before + [y, x] + after)
  {
    var p := ApplyAll(q, before);
    ApplyAllSplit(q, before, [x, y], after);
    ApplyAllSplit(q, before, [y, x], after);
    ApplyPair(p, x, y);
    ApplyPair(p, y, x);
    DistinctKeysCommute(p, Classify(x.0, x.1), Classify(y.0, y.1));
  }

  /** A split of the updates in three, applied part by part. */
  lemma ApplyAllSplit(q: Values, before: seq<(string, string)>, s: seq<(string, string)>, after: seq<(string, string)>)
    ensures ApplyAll(q, before + s + after) == ApplyAll(ApplyAll(ApplyAll(q, before), s), after)
  {
    ApplyAllConcat(q, before + s, after);
    ApplyAllConcat(q, before, s);
  }

  /** Two updates applied in sequence order. */
  lemma ApplyPair(q: Values, x: (string, string), y: (string, string))
    ensures ApplyAll(q, [x, y]) == ApplyAction(ApplyAction(q, Classify(x.0, x.1)), Classify(y.0, y.1))
  {
    var a, b := Classify(x.0, x.1), Classify(y.0, y.1);
    assert ApplyAll(q, [x]) == ApplyAction(q, a) by {
      assert [x][..0] == [];
    }
    assert [x, y][..1] == [x] && [x, y][1] == y;
    assert ApplyAll(q, [x, y]) == ApplyAction(ApplyAll(q, [x]), b);
  }

  /**
   * Updates that name the same key do depend on the order: the Go map
   * {"a": "1", "-a": ""} leaves `a` or not depending on which is visited last.
   */
  lemma CollidingUpdatesDependOnOrder()
    ensures ApplyAll(map[], [("a", "1"), ("-a", "")]) == map[]
    ensures ApplyAll(map[], [("-a", ""), ("a", "1")]) == map["a" := ["1"]]
  {
  }
}
