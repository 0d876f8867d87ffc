/** The read and write paths of a connection around its masked secrets: redactExtra,
    unmaskExtra and toPatch (internal/api/ui_connections.go), with the tri-state upsert they
    feed (internal/storage/queries/connections.sql).

    The in-place loops over decoded maps and arrays are methods; a map is visited in any
    order. */
module Connections {
  import opened Wrappers
  import opened Json
  import opened SecretMask

  /** A connection's `extra` as its text decodes: a JSON value of any kind, or text that is none.
      The bare mask is such text; the mask in quotes is a JSON string. */
  datatype Extra = Doc(value: Value) | Text(text: string)

  /** Only an object, or the null that decodes to the nil map, is shown. */
  function RedactExtra(e: Extra, sensitive: string -> bool): Extra
  {
    if e == Text("") || e == Doc(Null) then e
    else if e.Doc? && e.value.Object? then Doc(Redact(e.value, sensitive))
    else Text(MASK)
  }

  function StoredFields(e: Extra): map<string, Value>
  {
    if e.Doc? && e.value.Object? then e.value.fields else map[]
  }

  /** The extra to persist, or None to preserve the stored field. */
  function UnmaskExtra(incoming: Extra, stored: Extra): Option<Extra>
  {
    if incoming == Text(MASK) then None
    else if !(incoming.Doc? && incoming.value.Object?) then Some(incoming)
    else
      var merged := MergeTop(incoming.value.fields, StoredFields(stored));
      if HasMask(Object(merged)) then None else Some(Doc(Object(merged)))
  }

  // ---- the in-place loops --------------------------------------------------------------

  /** redactMap: every key of the map, in whatever order ranging yields them. */
  method RedactMap(v: Value, sensitive: string -> bool) returns (r: map<string, Value>)
    requires v.Object?
    ensures Object(r) == Redact(v, sensitive)
    decreases v, 0
  {
    r := v.fields;
    var todo := v.fields.Keys;
    while todo != {}
      invariant todo <= v.fields.Keys && r.Keys == v.fields.Keys
      invariant forall k :: k in v.fields ==> r[k] == if k in todo then v.fields[k] else Redact(v, sensitive).fields[k]
      decreases todo
    {
      var k :| k in todo;
      todo := todo - {k};
      if sensitive(k) {
        r := r[k := String(MASK)];
      } else {
        var c := RedactAny(v.fields[k], sensitive);
        r := r[k := c];
      }
    }
  }

  method RedactAny(v: Value, sensitive: string -> bool) returns (r: Value)
    ensures r == Redact(v, sensitive)
    decreases v, 1
  {
    r := v;
    if v.Object? {
      var m := RedactMap(v, sensitive);
      r := Object(m);
    } else if v.Array? {
      var es := v.elems;
      for i := 0 to |v.elems|
        invariant |es| == |v.elems|
        invariant forall j :: 0 <= j < |es| ==> es[j] == if j < i then Redact(v.elems[j], sensitive) else v.elems[j]
      {
        var e := RedactAny(v.elems[i], sensitive);
        es := es[i := e];
      }
      r := Array(es);
    }
  }

  /** redactExtra over the loops. */
  method RedactExtraInPlace(e: Extra, sensitive: string -> bool) returns (r: Extra)
    ensures r == RedactExtra(e, sensitive)
  {
    if e == Text("") { return e; }
    if e.Text? || !(e.value.Object? || e.value.Null?) { return Text(MASK); }
    if e.value.Null? { return e; }
    var m := RedactMap(e.value, sensitive);
    r := Doc(Object(m));
  }

  /** What unmaskMap makes of one key. */
  function UnmaskedField(m: map<string, Value>, stored: map<string, Value>, topLevel: bool, k: string): Option<Value>
    requires k in m
  {
    if topLevel && Spurious(m, stored, k) then None
    else Some(Merge(m[k], ChildOf(Some(Object(stored)), Key(k)), false))
  }

  method UnmaskMap(v: Value, stored: map<string, Value>, topLevel: bool) returns (r: map<string, Value>)
    requires v.Object?
    ensures r == if topLevel then MergeTop(v.fields, stored) else Merge(v, Some(Object(stored)), false).fields
    decreases v, 0
  {
    var m := v.fields;
    r := m;
    var todo := m.Keys;
    while todo != {}
      invariant todo <= m.Keys && r.Keys <= m.Keys
      invariant forall k :: k in m ==>
                  (if k in r then Some(r[k]) else None) == if k in todo then Some(m[k]) else UnmaskedField(m, stored, topLevel, k)
      decreases todo
    {
      var k :| k in todo;
      todo := todo - {k};
      if IsMask(m[k]) {
        if k in stored {
          r := r[k := stored[k]];
        } else if topLevel {
          r := r - {k};
        }
      } else if m[k].Object? {
        var sub := if k in stored && stored[k].Object? then stored[k].fields else map[];
        var c := UnmaskMap(m[k], sub, false);
        MergeIgnoresOther(m[k], ChildOf(Some(Object(stored)), Key(k)));
        r := r[k := Object(c)];
      } else if m[k].Array? {
        var sub := if k in stored && stored[k].Array? then stored[k].elems else [];
        var c := UnmaskSlice(m[k], sub);
        MergeIgnoresOther(m[k], ChildOf(Some(Object(stored)), Key(k)));
        r := r[k := Array(c)];
      }
    }
  }

  method UnmaskSlice(v: Value, stored: seq<Value>) returns (r: seq<Value>)
    requires v.Array?
    ensures Array(r) == Merge(v, Some(Array(stored)), false)
    decreases v, 0
  {
    var es := v.elems;
    r := es;
    for i := 0 to |es|
      invariant |r| == |es|
      invariant forall j :: 0 <= j < |es| ==>
                  r[j] == if j < i then Merge(es[j], ChildOf(Some(Array(stored)), Index(j)), true) else es[j]
    {
      var s: Option<Value> := if i < |stored| then Some(stored[i]) else None;
      if IsMask(es[i]) {
        if s.Some? && !s.value.Null? { r := r[i := s.value]; }
      } else if es[i].Object? {
        var sub := if s.Some? && s.value.Object? then s.value.fields else map[];
        var c := UnmaskMap(es[i], sub, false);
        MergeIgnoresOther(es[i], s);
        r := r[i := Object(c)];
      } else if es[i].Array? {
        var sub := if s.Some? && s.value.Array? then s.value.elems else [];
        var c := UnmaskSlice(es[i], sub);
        MergeIgnoresOther(es[i], s);
        r := r[i := Array(c)];
      }
    }
  }

  /** A container merges against a store of another kind as against an empty one. */
  lemma MergeIgnoresOther(v: Value, stored: Option<Value>)
    ensures v.Object? ==> forall inArray ::
              Merge(v, stored, inArray) == Merge(v, Some(Object(if stored.Some? && stored.value.Object? then stored.value.fields else map[])), false)
    ensures v.Array? ==> forall inArray ::
              Merge(v, stored, inArray) == Merge(v, Some(Array(if stored.Some? && stored.value.Array? then stored.value.elems else [])), false)
  {
  }

  /** unmaskExtra over the loops. */
  method UnmaskExtraInPlace(incoming: Extra, stored: Extra) returns (result: Option<Extra>)
    ensures result == UnmaskExtra(incoming, stored)
  {
    if incoming == Text(MASK) {
      result := None;
    } else if !(incoming.Doc? && incoming.value.Object?) {
      result := Some(incoming);
    } else {
      var merged := UnmaskMap(incoming.value, StoredFields(stored), true);
      result := if HasMask(Object(merged)) then None else Some(Doc(Object(merged)));
    }
  }

  // ---- the merge, path by path -----------------------------------------------------------

  lemma TopChild(m: map<string, Value>, stored: map<string, Value>, step: Step)
    ensures Child(Object(MergeTop(m, stored)), step) ==
            if Child(Object(m), step).None? || (step.Key? && Spurious(m, stored, step.k)) then None
            else Some(Merge(Child(Object(m), step).value, Child(Object(stored), step), false))
  {
  }

  /** What is persisted holds no mask; its keys are the incoming ones but for masked keys the
      store lacks; on or below an incoming mask it is the stored tree, and everywhere else it
      has the incoming shape. */
  lemma PersistedPathByPath(m: map<string, Value>, stored: Extra, p: Path)
    requires UnmaskExtra(Doc(Object(m)), stored).Some? && p != []
    ensures var r := UnmaskExtra(Doc(Object(m)), stored).value;
            && r.Doc? && r.value.Object? && !HasMask(r.value)
            && r.value.fields.Keys == (set k | k in m && !(m[k] == String(MASK) && k !in StoredFields(stored)))
            && if ThroughMask(Some(Object(m)), p) then At(Some(r.value), p) == At(Some(Object(StoredFields(stored))), p)
               else SameShape(At(Some(Object(m)), p), At(Some(r.value), p))
  {
    var st := StoredFields(stored);
    var r := MergeTop(m, st);
    TopChild(m, st, p[0]);
    ThroughMaskBelow(Object(m), p);
    var c := Child(Object(m), p[0]);
    if c.None? {
      AtNone(p[1..]);
      NoMaskInNone(p[1..]);
    } else if p[0].Key? && Spurious(m, st, p[0].k) {
      assert p[1..][..0] == [];
      assert ThroughMask(c, p[1..]);
      AtNone(p[1..]);
    } else {
      if HasMask(Child(Object(r), p[0]).value) { HasMaskBelow(Object(r), p[0]); }
      MergeAt(c.value, Child(Object(st), p[0]), false, p[1..]);
    }
  }

  /** An incoming mask the store cannot resolve and the top level does not drop. */
  ghost predicate Blocking(m: map<string, Value>, stored: map<string, Value>, p: Path)
  {
    && p != []
    && Unresolved(Some(Object(m)), Some(Object(stored)), false, p)
    && !(|p| == 1 && p[0].Key? && Spurious(m, stored, p[0].k))
  }

  /** The field is preserved exactly when some mask cannot be resolved. */
  lemma PreservedIff(m: map<string, Value>, stored: Extra)
    ensures UnmaskExtra(Doc(Object(m)), stored).None? <==> exists p :: Blocking(m, StoredFields(stored), p)
  {
    var st := StoredFields(stored);
    var r := MergeTop(m, st);
    if HasMask(Object(r)) {
      var k :| k in r && HasMask(r[k]);
      var p := SurvivorPath(m[k], ChildOf(Some(Object(st)), Key(k)), false);
      UnresolvedBelow(Object(m), Some(Object(st)), false, Key(k), p);
      var q := [Key(k)] + p;
      assert Blocking(m, st, q) by {
        if |q| == 1 { assert p == []; }
      }
    }
    forall p | Blocking(m, st, p) ensures HasMask(Object(r)) {
      BlockingSurvives(m, st, p);
    }
  }

  lemma BlockingSurvives(m: map<string, Value>, stored: map<string, Value>, p: Path)
    requires Blocking(m, stored, p)
    ensures HasMask(Object(MergeTop(m, stored)))
  {
    var c := Child(Object(m), p[0]);
    if c.None? {
      AtNone(p[1..]);
      assert false;
    }
    assert p == [p[0]] + p[1..];
    UnresolvedBelow(Object(m), Some(Object(stored)), false, p[0], p[1..]);
    if Spurious(m, stored, p[0].k) {
      assert p[1..] != [];
      assert At(c, p[1..]) == At(Child(c.value, p[1]), p[1..][1..]);
      AtNone(p[1..][1..]);
      assert false;
    }
    UnresolvedSurvives(c.value, Child(Object(stored), p[0]), false, p[1..]);
    TopChild(m, stored, p[0]);
    HasMaskBelow(Object(MergeTop(m, stored)), p[0]);
  }

  // ---- round trips --------------------------------------------------------------------------

  /** Merging back what redaction returned gives the stored extra, or preserves it: that is, when
      it is an object that holds a literal mask, or no object at all. */
  lemma RoundTrip(e: Extra, sensitive: string -> bool)
    ensures UnmaskExtra(RedactExtra(e, sensitive), e) ==
            if e == Text("") || e == Doc(Null) || (e.Doc? && e.value.Object? && !HasMask(e.value))
            then Some(e) else None
  {
    if e.Doc? && e.value.Object? {
      var m := e.value.fields;
      var r := Redact(e.value, sensitive).fields;
      assert MergeTop(r, m) == m by {
        MergeOfRedacted(e.value, sensitive, false);
        forall k | k in m ensures MergeTop(r, m)[k] == m[k] {
          assert Merge(Object(r), Some(e.value), false).fields[k] == m[k];
        }
      }
    }
  }

  datatype Connection = Connection(
    connType: string, host: string, login: string, schema: string, description: string,
    port: Option<int>, password: string, extra: Extra)

  /** The payload of a write and the patch it becomes: an absent field preserves. */
  datatype Patch = Patch(
    connType: string, host: Option<string>, login: Option<string>, schema: Option<string>,
    description: Option<string>, port: Option<int>, password: Option<string>, extra: Option<Extra>)

  function NonEmpty(s: string): Option<string>
  {
    if s == "" then None else Some(s)
  }

  /** What a read returns: the password never, an empty field as null. */
  function ToDTO(c: Connection, sensitive: string -> bool): Patch
  {
    var extra := RedactExtra(c.extra, sensitive);
    Patch(c.connType, NonEmpty(c.host), NonEmpty(c.login), NonEmpty(c.schema), NonEmpty(c.description),
          c.port, None, if extra == Text("") then None else Some(extra))
  }

  function ToPatch(body: Patch, stored: Connection): Patch
  {
    body.(password := if body.password == Some(MASK) then None else body.password,
          extra := if body.extra.None? then None else UnmaskExtra(body.extra.value, stored.extra))
  }

  function Or<T>(o: Option<T>, current: T): T
  {
    if o.Some? then o.value else current
  }

  /** The upsert: COALESCE of the patch and the row. */
  function Upsert(c: Connection, p: Patch): Connection
  {
    Connection(p.connType, Or(p.host, c.host), Or(p.login, c.login), Or(p.schema, c.schema),
               Or(p.description, c.description), if p.port.Some? then p.port else c.port,
               Or(p.password, c.password), Or(p.extra, c.extra))
  }

  // ---- what a read shows --------------------------------------------------------------------------

  ghost predicate IsObject(e: Extra)
  {
    e.Doc? && e.value.Object?
  }

  /** An object is read as an object in which every sensitive key that a clear path leads to holds the
      mask, whatever it held, and which has the same shape along every clear path. */
  lemma ReadMasks(c: Connection, sensitive: string -> bool, p: Path, k: string)
    requires IsObject(c.extra) && Clear(p, sensitive)
    ensures var r := ToDTO(c, sensitive).extra;
            && r.Some? && IsObject(r.value) && r == Some(RedactExtra(c.extra, sensitive))
            && SameShape(At(Some(c.extra.value), p), At(Some(r.value.value), p))
            && (sensitive(k) ==> At(Some(r.value.value), p + [Key(k)])
                                 == if At(Some(c.extra.value), p + [Key(k)]).Some? then Some(String(MASK)) else None)
  {
    RedactKeepsShape(c.extra.value, sensitive, p);
    if sensitive(k) { RedactMasks(c.extra.value, sensitive, p, k); }
  }

  /** Two objects are read alike if and only if they agree outside sensitive subtrees. */
  lemma ReadHidesExactly(c: Connection, d: Connection, sensitive: string -> bool)
    requires IsObject(c.extra) && IsObject(d.extra)
    ensures ToDTO(c, sensitive).extra == ToDTO(d, sensitive).extra <==> AgreeOutside(c.extra.value, d.extra.value, sensitive)
  {
    RedactHidesExactly(c.extra.value, d.extra.value, sensitive);
  }

  /** Everything else is read as the bare mask, except an empty extra and null. */
  lemma ReadFailsClosed(c: Connection, sensitive: string -> bool)
    requires !IsObject(c.extra)
    ensures ToDTO(c, sensitive).extra == if c.extra == Text("") then None
                                         else if c.extra == Doc(Null) then Some(Doc(Null)) else Some(Text(MASK))
    ensures RedactExtra(c.extra, sensitive) == if c.extra == Text("") || c.extra == Doc(Null) then c.extra else Text(MASK)
  {
  }

  /** The password is never read; the other fields are, an empty one as absent. */
  lemma ReadFields(c: Connection, sensitive: string -> bool)
    ensures var d := ToDTO(c, sensitive);
            && d.password.None? && d.connType == c.connType && d.port == c.port
            && (d.host.None? <==> c.host == "") && (d.host.Some? ==> d.host.value == c.host)
            && (d.login.None? <==> c.login == "") && (d.login.Some? ==> d.login.value == c.login)
            && (d.schema.None? <==> c.schema == "") && (d.schema.Some? ==> d.schema.value == c.schema)
            && (d.description.None? <==> c.description == "") && (d.description.Some? ==> d.description.value == c.description)
  {
  }

  /** What a write leaves, field by field: an absent field and a masked password keep what is stored,
      every other payload takes its place, the empty one included. */
  lemma WriteFields(c: Connection, body: Patch)
    ensures var w := Upsert(c, ToPatch(body, c));
            && w.connType == body.connType
            && w.password == (if body.password.Some? && body.password.value != MASK then body.password.value else c.password)
            && w.host == (if body.host.Some? then body.host.value else c.host)
            && w.login == (if body.login.Some? then body.login.value else c.login)
            && w.schema == (if body.schema.Some? then body.schema.value else c.schema)
            && w.description == (if body.description.Some? then body.description.value else c.description)
            && w.port == (if body.port.Some? then body.port else c.port)
            && (body.extra.None? ==> w.extra == c.extra)
            && (body.extra.Some? && !IsObject(body.extra.value) ==>
                  w.extra == if body.extra.value == Text(MASK) then c.extra else body.extra.value)
  {
  }

  /** PATCHing a connection with exactly what GET returned leaves it as it was. */
  lemma WriteBackIsIdentity(c: Connection, sensitive: string -> bool)
    ensures Upsert(c, ToPatch(ToDTO(c, sensitive), c)) == c
  {
    RoundTrip(c.extra, sensitive);
  }

  // ---- masks in the store ----------------------------------------------------------------------

  predicate HoldsMask(e: Extra)
  {
    if e.Doc? then HasMask(e.value) else e.text == MASK
  }

  predicate MaskFree(c: Connection)
  {
    c.password != MASK && !HoldsMask(c.extra)
  }

  /** The payload's extra is a JSON string or array with the mask in it: not an object, so it is
      persisted as it is. */
  predicate Slips(body: Patch)
  {
    body.extra.Some? && body.extra.value.Doc? && !body.extra.value.value.Object? && HasMask(body.extra.value.value)
  }

  function Write(c: Connection, body: Patch): Connection
  {
    Upsert(c, ToPatch(body, c))
  }

  /** A write leaves a mask exactly when its payload slips, or it preserves a field that holds
      one already; what it merges never does. */
  lemma WriteLeavesMaskIff(c: Connection, body: Patch)
    ensures HoldsMask(Write(c, body).extra) <==> Slips(body) || (ToPatch(body, c).extra.None? && HoldsMask(c.extra))
    ensures Write(c, body).password == MASK ==> c.password == MASK
  {
  }

  /** The connection after the first n writes. */
  function After(c: Connection, bodies: seq<Patch>, n: nat): Connection
    requires n <= |bodies|
  {
    if n == 0 then c else Write(After(c, bodies, n - 1), bodies[n - 1])
  }

  ghost predicate FreeThroughout(c: Connection, bodies: seq<Patch>, n: nat)
    requires n <= |bodies|
  {
    MaskFree(After(c, bodies, n)) && (n > 0 ==> FreeThroughout(c, bodies, n - 1))
  }

  /** A connection without a mask stays without one through each of the first n writes exactly
      when none of their payloads slips. */
  lemma {:induction false} MaskNeverStoredIff(c: Connection, bodies: seq<Patch>, n: nat)
    requires MaskFree(c) && n <= |bodies|
    ensures FreeThroughout(c, bodies, n) <==> forall i: nat :: i < n ==> !Slips(bodies[i])
  {
    if n > 0 {
      MaskNeverStoredIff(c, bodies, n - 1);
      WriteLeavesMaskIff(After(c, bodies, n - 1), bodies[n - 1]);
    }
  }

  /** The array that holds just the mask is stored as it is. */
  lemma MaskInArrayIsStored(c: Connection)
    ensures var body := Patch(c.connType, None, None, None, None, None, None, Some(Doc(Array([String(MASK)]))));
            Slips(body) && HoldsMask(Write(c, body).extra)
  {
    assert [String(MASK)][0] == String(MASK) && HasMask([String(MASK)][0]);
  }
}
