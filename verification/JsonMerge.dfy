/** The recursive JSON merge that folds a defaults block into a config block. */
module JsonMerge {
  import opened Prelude
  import opened Json

  /** `t` with every missing or null field filled from `d`; on conflict `t` wins. */
  function Merge(t: Json, d: Json): Json
    decreases d
  {
    if t.Object? && d.Object? then
      Object(map k | k in t.fields.Keys + d.fields.Keys ::
        if k !in d.fields then t.fields[k]
        else if k !in t.fields || t.fields[k].Null? then d.fields[k]
        else Merge(t.fields[k], d.fields[k]))
    else if t.Null? then d
    else t
  }

  /** The source's loop: default fields are visited one at a time, in any order. */
  method DeepMergeJson(target: Json, defaults: Json) returns (r: Json)
    ensures r == Merge(target, defaults)
    decreases defaults
  {
    if target.Object? && defaults.Object? {
      var t, d := target.fields, defaults.fields;
      var out, todo := t, d.Keys;
      while todo != {}
        invariant todo <= d.Keys && out.Keys == t.Keys + (d.Keys - todo)
        invariant forall k :: k in out ==>
          out[k] == if k !in d || k in todo then t[k] else Merge(target, defaults).fields[k]
      {
        var k :| k in todo;
        if k in out && !out[k].Null? {
          var merged := DeepMergeJson(out[k], d[k]);
          out := out[k := merged];
        } else {
          out := out[k := d[k]];
        }
        todo := todo - {k};
      }
      return Object(out);
    }
    r := if target.Null? then defaults else target;
  }

  // -------------------------------------------------------- path-wise specification

  /** What a path leads to: nothing, an object, or any other value. */
  datatype Shape = Absent | Branch | Leaf(v: Json)

  type Path = seq<string>

  function ShapeAt(j: Json, p: Path): Shape
    decreases |p|
  {
    if p == [] then (if j.Object? then Branch else Leaf(j))
    else if j.Object? && p[0] in j.fields then ShapeAt(j.fields[p[0]], p[1..])
    else Absent
  }

  /** Some value strictly above `p` is neither null nor an object. */
  predicate Blocked(t: Json, p: Path)
    decreases |p|
  {
    p != [] &&
    if t.Object? then p[0] in t.fields && Blocked(t.fields[p[0]], p[1..]) else !t.Null?
  }

  /** What the merge promises at one path, in terms of the two inputs at that path. */
  function Promised(t: Json, d: Json, p: Path): Shape {
    match ShapeAt(t, p)
    case Branch => Branch
    case Leaf(v) => if v.Null? && ShapeAt(d, p) != Absent then ShapeAt(d, p) else Leaf(v)
    case Absent => if Blocked(t, p) then Absent else ShapeAt(d, p)
  }

  /** `m` is, at every path, what the merge promises of `t` and `d`. */
  ghost predicate Promises(m: Json, t: Json, d: Json) {
    forall p :: ShapeAt(m, p) == Promised(t, d, p)
  }

  /** The merge keeps its promise at every path. */
  lemma {:induction false} MergeAt(t: Json, d: Json, p: Path)
    ensures ShapeAt(Merge(t, d), p) == Promised(t, d, p)
    decreases |p|
  {
    if p != [] && t.Object? && d.Object? {
      var k := p[0];
      if k in t.fields && k in d.fields {
        MergeAt(t.fields[k], d.fields[k], p[1..]);
      }
    }
  }

  lemma ShapeBelow(j: Json, k: string, p: Path)
    requires j.Object?
    ensures ShapeAt(j, [k] + p) == if k in j.fields then ShapeAt(j.fields[k], p) else Absent
  {
    assert ([k] + p)[0] == k && ([k] + p)[1..] == p;
  }

  lemma SameKeys(a: Json, b: Json, k: string)
    requires a.Object? && b.Object? && ShapeAt(a, [k] + []) == ShapeAt(b, [k] + [])
    ensures k in a.fields <==> k in b.fields
  {
    ShapeBelow(a, k, []);
    ShapeBelow(b, k, []);
  }

  /** A value is determined by what its paths lead to. */
  lemma {:induction false} PathsDetermine(a: Json, b: Json)
    requires forall p :: ShapeAt(a, p) == ShapeAt(b, p)
    ensures a == b
    decreases a
  {
    assert ShapeAt(a, []) == ShapeAt(b, []);
    if a.Object? {
      forall k ensures k in a.fields <==> k in b.fields {
        SameKeys(a, b, k);
      }
      forall k | k in a.fields ensures a.fields[k] == b.fields[k] {
        forall p ensures ShapeAt(a.fields[k], p) == ShapeAt(b.fields[k], p) {
          ShapeBelow(a, k, p);
          ShapeBelow(b, k, p);
        }
        PathsDetermine(a.fields[k], b.fields[k]);
      }
    }
  }

  /** So the path-wise promise admits no other merge. */
  lemma MergeIsTheOnlyOne(t: Json, d: Json, m: Json)
    requires Promises(m, t, d)
    ensures m == Merge(t, d)
  {
    forall p ensures ShapeAt(m, p) == ShapeAt(Merge(t, d), p) {
      MergeAt(t, d, p);
    }
    PathsDetermine(m, Merge(t, d));
  }

  // ------------------------------------------------------------------ idempotence

  lemma {:induction false} MergeSelf(d: Json)
    ensures Merge(d, d) == d
    decreases d
  {
    if d.Object? {
      forall k | k in d.fields ensures Merge(d.fields[k], d.fields[k]) == d.fields[k] {
        MergeSelf(d.fields[k]);
      }
    }
  }

  /** Merging the same defaults again changes nothing. */
  lemma {:induction false} MergeTwice(t: Json, d: Json)
    ensures Merge(Merge(t, d), d) == Merge(t, d)
    decreases d
  {
    if t.Object? && d.Object? {
      var m := Merge(t, d);
      forall k | k in d.fields ensures Merge(m.fields[k], d.fields[k]) == m.fields[k] {
        if k in t.fields && !t.fields[k].Null? {
          MergeTwice(t.fields[k], d.fields[k]);
        } else {
          MergeSelf(d.fields[k]);
        }
      }
      assert Merge(m, d).fields.Keys == m.fields.Keys;
      forall k | k in m.fields ensures Merge(m, d).fields[k] == m.fields[k] {
      }
    } else if t.Null? {
      MergeSelf(d);
    }
  }
}
