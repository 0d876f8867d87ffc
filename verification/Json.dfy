/** JSON values as trees (section 3 of RFC 8259), with paths into them. Text, duplicate keys
    and the precision of numbers are below this level. */
module Json {
  import opened Wrappers

  datatype Value =
    | Null
    | Bool(b: bool)
    | Number(n: real)
    | String(s: string)
    | Array(elems: seq<Value>)
    | Object(fields: map<string, Value>)

  datatype Step = Key(k: string) | Index(i: nat)

  type Path = seq<Step>

  function Child(v: Value, step: Step): Option<Value>
  {
    match step
    case Key(k) => if v.Object? && k in v.fields then Some(v.fields[k]) else None
    case Index(i) => if v.Array? && i < |v.elems| then Some(v.elems[i]) else None
  }

  /** A child of a value that may itself be absent. */
  function ChildOf(o: Option<Value>, step: Step): Option<Value>
  {
    if o.None? then None else Child(o.value, step)
  }

  /** The value at the end of a path, if the path leads anywhere. */
  function At(o: Option<Value>, p: Path): Option<Value>
    decreases |p|
  {
    if p == [] then o else At(ChildOf(o, p[0]), p[1..])
  }

  /** Equal but for what lies below: same scalar, same array length, same keys. */
  predicate SameShape(a: Option<Value>, b: Option<Value>)
  {
    match (a, b)
    case (None, None) => true
    case (Some(Array(x)), Some(Array(y))) => |x| == |y|
    case (Some(Object(m)), Some(Object(n))) => m.Keys == n.Keys
    case _ => a == b
  }

  lemma {:induction false} AtNone(p: Path)
    ensures At(None, p) == None
  {
    if p != [] { AtNone(p[1..]); }
  }

  /** A tree is its shapes: two values with the same shape at every path are equal. */
  lemma {:induction false} ShapesDetermine(a: Value, b: Value)
    requires forall p :: SameShape(At(Some(a), p), At(Some(b), p))
    ensures a == b
  {
    assert SameShape(At(Some(a), []), At(Some(b), []));
    match a
    case Array(x) =>
      forall i | 0 <= i < |x| ensures x[i] == b.elems[i] {
        forall p ensures SameShape(At(Some(x[i]), p), At(Some(b.elems[i]), p)) {
          ShapeBelow(a, b, Index(i), p);
        }
        ShapesDetermine(x[i], b.elems[i]);
      }
    case Object(m) =>
      forall k | k in m ensures m[k] == b.fields[k] {
        forall p ensures SameShape(At(Some(m[k]), p), At(Some(b.fields[k]), p)) {
          ShapeBelow(a, b, Key(k), p);
        }
        ShapesDetermine(m[k], b.fields[k]);
      }
    case _ =>
  }

  lemma ShapeBelow(a: Value, b: Value, step: Step, p: Path)
    requires forall q :: SameShape(At(Some(a), q), At(Some(b), q))
    ensures SameShape(At(Child(a, step), p), At(Child(b, step), p))
  {
    var q := [step] + p;
    assert q[0] == step && q[1..] == p;
    assert SameShape(At(Some(a), q), At(Some(b), q));
  }
}
