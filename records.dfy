/**
 * A JavaScript `Record<string, string>` as the palette engines use it: an
 * object whose own non-integer string keys (every role name is one) iterate
 * in insertion order. Assigning to a key
 * that is already present replaces its value and keeps its position; assigning
 * to a new key appends it. `Object.keys` is `order`, `Object.entries` pairs
 * each key of `order` with its value.
 */
module Records {

  import opened Wrappers

  predicate Distinct(ks: seq<string>) {
    forall i, j :: 0 <= i < j < |ks| ==> ks[i] != ks[j]
  }

  /** The own properties of an object, and their keys in insertion order. */
  datatype Record = Record(values: map<string, string>, order: seq<string>)

  /** `{}` */
  const Empty: Record := Record(map[], [])

  /** Every property is listed once in `order`, and `order` lists only properties. */
  ghost predicate WellFormed(p: Record) {
    (forall k :: k in p.values <==> k in p.order) && Distinct(p.order)
  }

  /** `p[k]`: `None` for `undefined`. */
  function Get(p: Record, k: string): (r: Option<string>)
    ensures r.Some? <==> k in p.values
  {
    if k in p.values then Some(p.values[k]) else None
  }

  /** `p[k] = v`: a new key goes to the end of the order, a present one stays where it is. */
  function Set(p: Record, k: string, v: string): (r: Record)
    ensures Get(r, k) == Some(v)
    ensures forall j :: j != k ==> Get(r, j) == Get(p, j)
    ensures k in p.values ==> r.order == p.order
    ensures k !in p.values ==> r.order == p.order + [k]
  {
    Record(p.values[k := v], if k in p.values then p.order else p.order + [k])
  }

  /** Assignment keeps an object well formed, and moves no key that is already present. */
  lemma SetWellFormed(p: Record, k: string, v: string)
    requires WellFormed(p)
    ensures WellFormed(Set(p, k, v))
    ensures k in p.order ==> Set(p, k, v).order == p.order
    ensures k !in p.order ==> Set(p, k, v).order == p.order + [k]
  {
    var r := Set(p, k, v);
    if k !in p.order {
      forall i, j | 0 <= i < j < |r.order|
        ensures r.order[i] != r.order[j]
      {
        if j == |p.order| {
          assert r.order[i] == p.order[i];
        }
      }
    }
  }

  lemma DistinctAppend(a: seq<string>, b: seq<string>)
    requires Distinct(a) && Distinct(b)
    requires forall i, j :: 0 <= i < |a| && 0 <= j < |b| ==> a[i] != b[j]
    ensures Distinct(a + b)
  {
    forall i, j | 0 <= i < j < |a + b|
      ensures (a + b)[i] != (a + b)[j]
    {
      if j < |a| {
        assert (a + b)[i] == a[i] && (a + b)[j] == a[j];
      } else if i < |a| {
        assert (a + b)[i] == a[i] && (a + b)[j] == b[j - |a|];
      } else {
        assert (a + b)[i] == b[i - |a|] && (a + b)[j] == b[j - |a|];
      }
    }
  }

  lemma AppendAssoc<T>(a: seq<T>, b: seq<T>, c: seq<T>)
    ensures (a + b) + c == a + (b + c)
  {
  }

  /** `Object.entries(p)`: each key with its value, in insertion order. */
  // Its ensures unfold the body for the proofs; what it promises is proved in the SnippetLines lemmas.
  function Entries(p: Record): (es: seq<(string, string)>)
    requires WellFormed(p)
    ensures |es| == |p.order|
    ensures forall i :: 0 <= i < |es| ==> es[i].0 == p.order[i] && Get(p, es[i].0) == Some(es[i].1)
  {
    seq(|p.order|, i requires 0 <= i < |p.order| => (p.order[i], p.values[p.order[i]]))
  }

  /** The line a stylesheet snippet prints for one entry. */
  function Declaration(key: string, value: string): string {
    "  --" + key + ": " + value + ";"
  }

  /** `Object.entries(p).map(([key, value]) => Declaration(key, format(value)))`. */
  // Its ensures unfold the body for the proofs; what it promises is proved in the SnippetLines lemmas.
  function Declarations(p: Record, format: string -> string): (lines: seq<string>)
    requires WellFormed(p)
    ensures |lines| == |p.order|
    ensures forall i :: 0 <= i < |lines| ==> lines[i] == Declaration(Entries(p)[i].0, format(Entries(p)[i].1))
  {
    var es := Entries(p);
    seq(|es|, i requires 0 <= i < |es| => Declaration(es[i].0, format(es[i].1)))
  }

  /** No key and no value holds a line break, so each entry prints on one line. */
  predicate SingleLine(p: Record) {
    (forall i :: 0 <= i < |p.order| ==> '\n' !in p.order[i]) &&
    (forall k :: k in p.values ==> '\n' !in p.values[k])
  }
}
