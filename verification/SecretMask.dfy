/** Masking the secrets in a connection's free-form `extra` on read, and merging a masked
    copy back on write (internal/api/ui_connections.go).

    Which keys are sensitive is a parameter: any predicate on key names. */
module SecretMask {
  import opened Wrappers
  import opened Json

  const MASK := "***"

  predicate IsMask(v: Value)
  {
    v == String(MASK)
  }

  /** containsMask: the mask survives somewhere in v. */
  predicate HasMask(v: Value)
  {
    match v
    case String(s) => s == MASK
    case Array(es) => exists i :: 0 <= i < |es| && HasMask(es[i])
    case Object(m) => exists k :: k in m && HasMask(m[k])
    case _ => false
  }

  /** A mask is somewhere in the tree exactly when some path leads to one. */
  lemma {:induction false} HasMaskIff(v: Value)
    ensures HasMask(v) <==> exists p :: At(Some(v), p) == Some(String(MASK))
  {
    if HasMask(v) { var p := PathToMask(v); }
    forall p | At(Some(v), p) == Some(String(MASK)) ensures HasMask(v) { MaskAtPath(v, p); }
  }

  lemma {:induction false} PathToMask(v: Value) returns (p: Path)
    requires HasMask(v)
    ensures At(Some(v), p) == Some(String(MASK))
    decreases v
  {
    match v
    case Array(es) =>
      var i :| 0 <= i < |es| && HasMask(es[i]);
      var q := PathToMask(es[i]);
      p := [Index(i)] + q;
      assert p[0] == Index(i) && p[1..] == q;
    case Object(m) =>
      var k :| k in m && HasMask(m[k]);
      var q := PathToMask(m[k]);
      p := [Key(k)] + q;
      assert p[0] == Key(k) && p[1..] == q;
    case _ => p := [];
  }

  lemma {:induction false} MaskAtPath(v: Value, p: Path)
    requires At(Some(v), p) == Some(String(MASK))
    ensures HasMask(v)
    decreases |p|
  {
    if p != [] {
      var c := Child(v, p[0]);
      if c.Some? { MaskAtPath(c.value, p[1..]); } else { AtNone(p[1..]); }
    }
  }

  // ---- redaction -----------------------------------------------------------------------

  function Redact(v: Value, sensitive: string -> bool): Value
  {
    match v
    case Array(es) => Array(seq(|es|, i requires 0 <= i < |es| => Redact(es[i], sensitive)))
    case Object(m) => Object(map k | k in m :: if sensitive(k) then String(MASK) else Redact(m[k], sensitive))
    case _ => v
  }

  /** The path enters no sensitive-keyed subtree. */
  predicate Clear(p: Path, sensitive: string -> bool)
  {
    forall j :: 0 <= j < |p| && p[j].Key? ==> !sensitive(p[j].k)
  }

  lemma RedactChild(v: Value, sensitive: string -> bool, step: Step)
    ensures Child(Redact(v, sensitive), step) ==
            match Child(v, step)
            case None => None
            case Some(c) => Some(if step.Key? && sensitive(step.k) then String(MASK) else Redact(c, sensitive))
  {
  }

  /** At every depth outside sensitive subtrees redaction keeps scalars, array lengths and key
      sets. */
  lemma {:induction false} RedactKeepsShape(v: Value, sensitive: string -> bool, p: Path)
    requires Clear(p, sensitive)
    ensures SameShape(At(Some(v), p), At(Some(Redact(v, sensitive)), p))
    decreases |p|
  {
    if p != [] {
      RedactChild(v, sensitive, p[0]);
      var c := Child(v, p[0]);
      if c.Some? { RedactKeepsShape(c.value, sensitive, p[1..]); } else { AtNone(p[1..]); }
    }
  }

  /** Every sensitive key that can be reached holds the mask, whatever it held. */
  lemma {:induction false} RedactMasks(v: Value, sensitive: string -> bool, p: Path, k: string)
    requires Clear(p, sensitive) && sensitive(k)
    ensures At(Some(Redact(v, sensitive)), p + [Key(k)])
         == if At(Some(v), p + [Key(k)]).Some? then Some(String(MASK)) else None
    decreases |p|
  {
    var q := p + [Key(k)];
    RedactChild(v, sensitive, q[0]);
    if p == [] {
      assert q[1..] == [];
    } else {
      assert q[1..] == p[1..] + [Key(k)];
      var c := Child(v, p[0]);
      if c.Some? { RedactMasks(c.value, sensitive, p[1..], k); } else { AtNone(q[1..]); }
    }
  }

  lemma {:induction false} RedactIdempotent(v: Value, sensitive: string -> bool)
    ensures Redact(Redact(v, sensitive), sensitive) == Redact(v, sensitive)
  {
    match v
    case Array(es) =>
      forall i | 0 <= i < |es| ensures Redact(Redact(es[i], sensitive), sensitive) == Redact(es[i], sensitive) {
        RedactIdempotent(es[i], sensitive);
      }
    case Object(m) =>
      forall k | k in m ensures Redact(Redact(m[k], sensitive), sensitive) == Redact(m[k], sensitive) {
        RedactIdempotent(m[k], sensitive);
      }
    case _ =>
  }

  /** The two trees differ only inside sensitive-keyed subtrees. */
  ghost predicate AgreeOutside(a: Value, b: Value, sensitive: string -> bool)
  {
    forall p :: Clear(p, sensitive) ==> SameShape(At(Some(a), p), At(Some(b), p))
  }

  lemma AgreeBelow(a: Value, b: Value, sensitive: string -> bool, step: Step)
    requires AgreeOutside(a, b, sensitive) && (step.Key? ==> !sensitive(step.k))
    requires Child(a, step).Some? && Child(b, step).Some?
    ensures AgreeOutside(Child(a, step).value, Child(b, step).value, sensitive)
  {
    forall p | Clear(p, sensitive) ensures SameShape(At(Child(a, step), p), At(Child(b, step), p)) {
      var q := [step] + p;
      assert q[0] == step && q[1..] == p && Clear(q, sensitive);
      assert SameShape(At(Some(a), q), At(Some(b), q));
    }
  }

  /** Redaction shows exactly what lies outside sensitive subtrees: two trees redact to the
      same tree if and only if they agree there. */
  lemma RedactHidesExactly(a: Value, b: Value, sensitive: string -> bool)
    ensures Redact(a, sensitive) == Redact(b, sensitive) <==> AgreeOutside(a, b, sensitive)
  {
    if AgreeOutside(a, b, sensitive) { AgreeingRedactAlike(a, b, sensitive); }
    if Redact(a, sensitive) == Redact(b, sensitive) {
      forall p | Clear(p, sensitive) ensures SameShape(At(Some(a), p), At(Some(b), p)) {
        RedactKeepsShape(a, sensitive, p);
        RedactKeepsShape(b, sensitive, p);
      }
    }
  }

  lemma {:induction false} AgreeingRedactAlike(a: Value, b: Value, sensitive: string -> bool)
    requires AgreeOutside(a, b, sensitive)
    ensures Redact(a, sensitive) == Redact(b, sensitive)
  {
    assert Clear([], sensitive);
    assert SameShape(At(Some(a), []), At(Some(b), []));
    match a
    case Array(x) =>
      forall i | 0 <= i < |x| ensures Redact(x[i], sensitive) == Redact(b.elems[i], sensitive) {
        AgreeBelow(a, b, sensitive, Index(i));
        AgreeingRedactAlike(x[i], b.elems[i], sensitive);
      }
    case Object(m) =>
      forall k | k in m && !sensitive(k) ensures Redact(m[k], sensitive) == Redact(b.fields[k], sensitive) {
        AgreeBelow(a, b, sensitive, Key(k));
        AgreeingRedactAlike(m[k], b.fields[k], sensitive);
      }
    case _ =>
  }

  // ---- merging back ----------------------------------------------------------------------

  /** What one incoming value becomes next to the stored value at the same place, if there is
      one. A mask takes the stored value, except that an array element takes no stored null;
      an unresolved mask stays. */
  function Merge(v: Value, stored: Option<Value>, inArray: bool): Value
    decreases v
  {
    match v
    case String(s) =>
      if s == MASK && stored.Some? && !(inArray && stored.value.Null?) then stored.value else v
    case Array(es) =>
      Array(seq(|es|, i requires 0 <= i < |es| => Merge(es[i], ChildOf(stored, Index(i)), true)))
    case Object(m) => Object(map k | k in m :: Merge(m[k], ChildOf(stored, Key(k)), false))
    case _ => v
  }

  /** A masked top-level key the store lacks. */
  predicate Spurious(m: map<string, Value>, stored: map<string, Value>, k: string)
  {
    k in m && IsMask(m[k]) && k !in stored
  }

  /** unmaskMap at the top level: spurious keys are dropped, the rest merged. */
  function MergeTop(m: map<string, Value>, stored: map<string, Value>): map<string, Value>
  {
    map k | k in m && !Spurious(m, stored, k) :: Merge(m[k], ChildOf(Some(Object(stored)), Key(k)), false)
  }

  /** Some prefix of the path leads to a mask. */
  ghost predicate ThroughMask(v: Option<Value>, p: Path)
  {
    exists j :: 0 <= j <= |p| && At(v, p[..j]) == Some(String(MASK))
  }

  lemma ThroughMaskBelow(v: Value, p: Path)
    requires p != [] && !IsMask(v)
    ensures ThroughMask(Some(v), p) <==> ThroughMask(Child(v, p[0]), p[1..])
  {
    if ThroughMask(Some(v), p) {
      var j :| 0 <= j <= |p| && At(Some(v), p[..j]) == Some(String(MASK));
      assert p[..j][1..] == p[1..][..j - 1];
    }
    if ThroughMask(Child(v, p[0]), p[1..]) {
      var j :| 0 <= j <= |p[1..]| && At(Child(v, p[0]), p[1..][..j]) == Some(String(MASK));
      assert p[..j + 1][1..] == p[1..][..j];
      assert At(Some(v), p[..j + 1]) == Some(String(MASK));
    }
  }

  /** A masked array element does not take a stored null, a masked object member does. */
  lemma NullsDiffer(k: string)
    ensures Merge(Array([String(MASK)]), Some(Array([Null])), false) == Array([String(MASK)])
    ensures Merge(Object(map[k := String(MASK)]), Some(Object(map[k := Null])), false) == Object(map[k := Null])
  {
    var es := [String(MASK)];
    assert es[0] == String(MASK) && ChildOf(Some(Array([Null])), Index(0)) == Some(Null);
    assert Merge(Array(es), Some(Array([Null])), false).elems == es;
    assert ChildOf(Some(Object(map[k := Null])), Key(k)) == Some(Null);
  }

  lemma MergeChild(v: Value, stored: Option<Value>, inArray: bool, step: Step)
    requires !IsMask(v)
    ensures Child(Merge(v, stored, inArray), step) ==
            match Child(v, step)
            case None => None
            case Some(c) => Some(Merge(c, ChildOf(stored, step), step.Index?))
  {
  }

  lemma HasMaskBelow(v: Value, step: Step)
    requires Child(v, step).Some? && HasMask(Child(v, step).value)
    ensures HasMask(v)
  {
  }

  /** Path by path: on or below an incoming mask the result is the stored tree, and everywhere
      else it has the incoming shape. */
  lemma {:induction false} MergeAt(v: Value, stored: Option<Value>, inArray: bool, p: Path)
    requires !HasMask(Merge(v, stored, inArray))
    ensures var r := Merge(v, stored, inArray);
            if ThroughMask(Some(v), p) then At(Some(r), p) == At(stored, p)
            else SameShape(At(Some(v), p), At(Some(r), p))
    decreases |p|
  {
    var r := Merge(v, stored, inArray);
    if IsMask(v) {
      assert p[..0] == [];
      assert ThroughMask(Some(v), p);
    } else if p == [] {
    } else {
      ThroughMaskBelow(v, p);
      MergeChild(v, stored, inArray, p[0]);
      var c := Child(v, p[0]);
      if c.Some? {
        if HasMask(Child(r, p[0]).value) { HasMaskBelow(r, p[0]); }
        MergeAt(c.value, ChildOf(stored, p[0]), p[0].Index?, p[1..]);
      } else {
        AtNone(p[1..]);
        NoMaskInNone(p[1..]);
      }
    }
  }

  lemma NoMaskInNone(p: Path)
    ensures !ThroughMask(None, p)
  {
    forall j | 0 <= j <= |p| ensures At(None, p[..j]) == None { AtNone(p[..j]); }
  }

  /** The stored value at a mask can stand in for it. */
  predicate Resolves(stored: Option<Value>, inArray: bool)
  {
    stored.Some? && !HasMask(stored.value) && !(inArray && stored.value.Null?)
  }

  /** The path leads to an incoming mask that the store cannot resolve. */
  ghost predicate Unresolved(v: Option<Value>, stored: Option<Value>, inArray: bool, p: Path)
  {
    && At(v, p) == Some(String(MASK))
    && !Resolves(At(stored, p), if p == [] then inArray else p[|p| - 1].Index?)
  }

  lemma UnresolvedBelow(v: Value, stored: Option<Value>, inArray: bool, step: Step, p: Path)
    requires Child(v, step).Some?
    ensures Unresolved(Some(v), stored, inArray, [step] + p) <==> Unresolved(Child(v, step), ChildOf(stored, step), step.Index?, p)
  {
    var q := [step] + p;
    assert q[0] == step && q[1..] == p;
    if p != [] { assert q[|q| - 1] == p[|p| - 1]; }
  }

  /** A mask survives the merge exactly when some incoming mask is unresolved. */
  lemma {:induction false} MaskSurvivesIff(v: Value, stored: Option<Value>, inArray: bool)
    ensures HasMask(Merge(v, stored, inArray)) <==> exists p :: Unresolved(Some(v), stored, inArray, p)
    decreases v
  {
    if HasMask(Merge(v, stored, inArray)) { var p := SurvivorPath(v, stored, inArray); }
    forall p | Unresolved(Some(v), stored, inArray, p) ensures HasMask(Merge(v, stored, inArray)) {
      UnresolvedSurvives(v, stored, inArray, p);
    }
  }

  lemma {:induction false} SurvivorPath(v: Value, stored: Option<Value>, inArray: bool) returns (p: Path)
    requires HasMask(Merge(v, stored, inArray))
    ensures Unresolved(Some(v), stored, inArray, p)
    decreases v
  {
    var r := Merge(v, stored, inArray);
    match v
    case Array(es) =>
      var i :| 0 <= i < |es| && HasMask(r.elems[i]);
      p := SurvivorPath(es[i], ChildOf(stored, Index(i)), true);
      UnresolvedBelow(v, stored, inArray, Index(i), p);
      p := [Index(i)] + p;
    case Object(m) =>
      var k :| k in m && HasMask(r.fields[k]);
      p := SurvivorPath(m[k], ChildOf(stored, Key(k)), false);
      UnresolvedBelow(v, stored, inArray, Key(k), p);
      p := [Key(k)] + p;
    case _ => p := [];
  }

  lemma {:induction false} UnresolvedSurvives(v: Value, stored: Option<Value>, inArray: bool, p: Path)
    requires Unresolved(Some(v), stored, inArray, p)
    ensures HasMask(Merge(v, stored, inArray))
    decreases |p|
  {
    if p != [] {
      var c := Child(v, p[0]);
      if c.None? {
        AtNone(p[1..]);
        assert false;
      }
      assert p == [p[0]] + p[1..];
      UnresolvedBelow(v, stored, inArray, p[0], p[1..]);
      UnresolvedSurvives(c.value, ChildOf(stored, p[0]), p[0].Index?, p[1..]);
      MergeChild(v, stored, inArray, p[0]);
      HasMaskBelow(Merge(v, stored, inArray), p[0]);
    }
  }

  /** Merging a redacted copy back into the tree it was made from restores the tree. */
  lemma {:induction false} MergeOfRedacted(v: Value, sensitive: string -> bool, inArray: bool)
    ensures Merge(Redact(v, sensitive), Some(v), inArray) == v
  {
    match v
    case Array(es) =>
      forall i | 0 <= i < |es| ensures Merge(Redact(es[i], sensitive), Some(es[i]), true) == es[i] {
        MergeOfRedacted(es[i], sensitive, true);
      }
    case Object(m) =>
      forall k | k in m ensures Merge(if sensitive(k) then String(MASK) else Redact(m[k], sensitive), Some(m[k]), false) == m[k] {
        MergeOfRedacted(m[k], sensitive, false);
      }
    case _ =>
  }
}
