/**
 * JSON-like data as loaded by `json.load`: nested dictionaries keyed by
 * strings, with lists and scalars as leaves. A path is the sequence of keys
 * followed from the root through nested dictionaries.
 */
module JsonTree {
  import opened Wrappers

  datatype Json =
    | Obj(members: map<string, Json>)
    | Arr(items: seq<Json>)
    | Str(text: string)
    | Num(n: int)
    | Bool(b: bool)
    | Null

  type Path = seq<string>

  /** `data[p[0]][p[1]]...`, or None as soon as a key is missing or a level is not a dictionary. */
  function Get(j: Json, p: Path): Option<Json>
    decreases |p|
  {
    if p == [] then Some(j)
    else if j.Obj? && p[0] in j.members then Get(j.members[p[0]], p[1..])
    else None
  }

  predicate Has(j: Json, p: Path) {
    Get(j, p).Some?
  }

  /** The key set of the dictionary found at `p`, None if there is no dictionary there. */
  function KeysAt(j: Json, p: Path): Option<set<string>> {
    match Get(j, p)
    case Some(Obj(m)) => Some(m.Keys)
    case _ => None
  }

  predicate IsPrefix(p: Path, q: Path) {
    |p| <= |q| && q[..|p|] == p
  }

  /** Neither path lies on the other: the two locations are disjoint subtrees. */
  predicate Diverge(p: Path, q: Path) {
    !IsPrefix(p, q) && !IsPrefix(q, p)
  }

  /** Two paths that start with the same key overlap exactly when their tails do. */
  lemma PrefixTail(p: Path, q: Path)
    requires p != [] && q != [] && p[0] == q[0]
    ensures IsPrefix(p[1..], q[1..]) <==> IsPrefix(p, q)
  {
    if IsPrefix(p[1..], q[1..]) {
      assert q[..|p|] == [q[0]] + q[1..][..|p| - 1];
    }
    if IsPrefix(p, q) {
      assert q[1..][..|p| - 1] == q[..|p|][1..];
    }
  }

  /**
   * Overwrites the value at an existing path, rebuilding the dictionaries on
   * the way down and keeping every other entry: `parent[last] = v`.
   */
  function Put(j: Json, p: Path, v: Json): (r: Json)
    requires Has(j, p)
    ensures Get(r, p) == Some(v)
    ensures p != [] ==> r.Obj? && r.members.Keys == j.members.Keys
    decreases |p|
  {
    if p == [] then v
    else Obj(j.members[p[0] := Put(j.members[p[0]], p[1..], v)])
  }

  /** Looking one key further: `Get(j, p + [k])` is the entry `k` of the dictionary at `p`. */
  lemma {:induction false} GetSnoc(j: Json, p: Path, k: string)
    ensures Get(j, p + [k]) ==
      match Get(j, p)
      case Some(Obj(m)) => if k in m then Some(m[k]) else None
      case _ => None
    decreases |p|
  {
    if p == [] {
      assert p + [k] == [k];
    } else {
      assert (p + [k])[0] == p[0] && (p + [k])[1..] == p[1..] + [k];
      if j.Obj? && p[0] in j.members {
        GetSnoc(j.members[p[0]], p[1..], k);
      }
    }
  }

  /** Writing at `p` leaves every location that does not overlap `p` as it was. */
  lemma {:induction false} GetPutOther(j: Json, p: Path, v: Json, q: Path)
    requires Has(j, p) && Diverge(p, q)
    ensures Get(Put(j, p, v), q) == Get(j, q)
    decreases |p|
  {
    assert p != [] && q != [];
    if p[0] == q[0] {
      PrefixTail(p, q);
      PrefixTail(q, p);
      GetPutOther(j.members[p[0]], p[1..], v, q[1..]);
    }
  }

  /**
   * Writing at `p` creates and removes no key: every location not inside the
   * written value exists afterwards exactly when it existed before, and every
   * dictionary there keeps its key set.
   */
  lemma {:induction false} PutKeepsKeys(j: Json, p: Path, v: Json, q: Path)
    requires Has(j, p) && !IsPrefix(p, q)
    ensures Has(Put(j, p, v), q) == Has(j, q)
    ensures KeysAt(Put(j, p, v), q) == KeysAt(j, q)
    decreases |q|
  {
    assert p != [];
    if q != [] && p[0] == q[0] {
      PrefixTail(p, q);
      PutKeepsKeys(j.members[p[0]], p[1..], v, q[1..]);
    } else if q != [] {
      assert Diverge(p, q);
      GetPutOther(j, p, v, q);
    }
  }

  /** Writing back the value already stored changes nothing. */
  lemma {:induction false} PutSame(j: Json, p: Path)
    requires Has(j, p)
    ensures Put(j, p, Get(j, p).value) == j
    decreases |p|
  {
    if p != [] {
      PutSame(j.members[p[0]], p[1..]);
      assert j.members[p[0] := j.members[p[0]]] == j.members;
    }
  }

  /** A second write at the same path replaces the first. */
  lemma {:induction false} PutPut(j: Json, p: Path, v: Json, w: Json)
    requires Has(j, p)
    ensures Put(Put(j, p, v), p, w) == Put(j, p, w)
    decreases |p|
  {
    if p != [] {
      PutPut(j.members[p[0]], p[1..], v, w);
      var m := j.members;
      assert m[p[0] := Put(m[p[0]], p[1..], v)][p[0] := Put(Put(m[p[0]], p[1..], v), p[1..], w)]
          == m[p[0] := Put(m[p[0]], p[1..], w)];
    }
  }

  /** Writes at two disjoint locations commute. */
  lemma {:induction false} PutCommute(j: Json, p: Path, v: Json, q: Path, w: Json)
    requires Has(j, p) && Has(j, q) && Diverge(p, q)
    ensures Has(Put(j, p, v), q) && Has(Put(j, q, w), p)
    ensures Put(Put(j, p, v), q, w) == Put(Put(j, q, w), p, v)
    decreases |p|
  {
    GetPutOther(j, p, v, q);
    GetPutOther(j, q, w, p);
    assert p != [] && q != [];
    var m := j.members;
    if p[0] == q[0] {
      PrefixTail(p, q);
      PrefixTail(q, p);
      PutCommute(m[p[0]], p[1..], v, q[1..], w);
    } else {
      assert m[p[0] := Put(m[p[0]], p[1..], v)][q[0] := Put(m[q[0]], q[1..], w)]
          == m[q[0] := Put(m[q[0]], q[1..], w)][p[0] := Put(m[p[0]], p[1..], v)];
    }
  }
}
