/** What the operations of a patch do to a document, told by what is found at its paths afterwards. */
module JsonOperations {
  import opened Basics
  import opened JsonValues
  import opened JsonPointers
  import opened Decimals
  import opened JsonPatches

  // ----- Paths that lead to different places -----

  /** The two tokens lead from j to different places. */
  predicate Differ(j: Json, a: string, b: string) {
    match j
    case Obj(_) => a != b
    case Arr(x) => Index(a, |x|) != Index(b, |x|)
    case _ => false
  }

  /** Path q leaves path p before its end; p exists but for its last token. */
  predicate Apart(j: Json, p: seq<string>, q: seq<string>)
    decreases |p|
  {
    && p != [] && q != []
    && (Differ(j, p[0], q[0]) || (Child(j, p[0]).Ok? && Apart(Child(j, p[0]).value, p[1..], q[1..])))
  }

  /** Whatever is put at a path, what lies apart from it stays. */
  lemma {:induction false} SetKeeps(j: Json, p: seq<string>, v: Json, q: seq<string>)
    requires At(j, p).Ok? && Apart(j, p, q)
    ensures At(Set(j, p, v), q) == At(j, q)
    decreases |p|
  {
    var w := Set(Child(j, p[0]).value, p[1..], v);
    ChildKeeps(j, p[0], w, q[0]);
    if !Differ(j, p[0], q[0]) {
      SetKeeps(Child(j, p[0]).value, p[1..], v, q[1..]);
    }
  }

  lemma ChildKeeps(j: Json, tok: string, w: Json, other: string)
    requires Child(j, tok).Ok?
    ensures Child(SetChild(j, tok, w), other) == if Differ(j, tok, other) then Child(j, other) else Ok(w)
    ensures !Differ(j, tok, other) ==> Child(j, other) == Child(j, tok)
  {
  }

  /** An object that changes under one key only changes no path apart from that key. */
  lemma {:induction false} KeyKeeps(j: Json, p: seq<string>, k: string, o: map<string, Json>, q: seq<string>)
    requires At(j, p).Ok? && At(j, p).value.Obj? && Apart(j, p + [k], q)
    requires forall x :: x != k ==> (x in o <==> x in At(j, p).value.o) && (x in o ==> o[x] == At(j, p).value.o[x])
    ensures At(Set(j, p, Obj(o)), q) == At(j, q)
    decreases |p|
  {
    if p == [] {
      assert (p + [k])[1..] == [];
    } else {
      assert (p + [k])[1..] == p[1..] + [k] && (p + [k])[0] == p[0];
      var c := Child(j, p[0]).value;
      ChildKeeps(j, p[0], Set(c, p[1..], Obj(o)), q[0]);
      if !Differ(j, p[0], q[0]) {
        KeyKeeps(c, p[1..], k, o, q[1..]);
      }
    }
  }

  /**
   The tokens that denote element i of an array: its numeral without leading zeros or, as the program
   reads it, a plus sign and digits of that value.  (A token with a NUL is cut there.)
   */
  lemma IndexIs(tok: string, n: nat, i: nat)
    requires n <= TWO64 && '\0' !in tok
    ensures Index(tok, n) == Ok(i) <==>
      i < n && (tok == Digits(i) || (|tok| > 1 && tok[0] == '+' && AllDigits(tok[1..]) && Value(tok[1..]) == i))
  {
    hide Digits, Value;
    NoNul(tok);
    DigitsValue(i);
    NotDash(i);
    if tok != "" && AllDigits(tok) && (tok[0] == '0' ==> |tok| == 1) {
      NumeralUnique(tok);
    }
  }

  lemma {:induction false} NoNul(s: string)
    requires '\0' !in s
    ensures CStr(s) == s
  {
    if s != "" {
      NoNul(s[1..]);
      assert s == [s[0]] + s[1..];
    }
  }

  // ----- Operations -----

  /** val is an operation of this name on the location with this pointer, whatever else it holds. */
  predicate IsOp(val: Json, name: string, path: seq<string>) {
    && val.Obj? && "op" in val.o && val.o["op"] == Str(name)
    && "path" in val.o && val.o["path"] == Str(ToString(path))
  }

  predicate HasValue(val: Json, v: Json) {
    val.Obj? && "value" in val.o && val.o["value"] == v
  }

  predicate HasFrom(val: Json, from: seq<string>) {
    val.Obj? && "from" in val.o && val.o["from"] == Str(ToString(from))
  }

  predicate HasPointer(val: Json, name: string) {
    val.Obj? && name in val.o && val.o[name].Str? && Split(val.o[name].s).Ok?
  }

  /** Only the six operations, with the members they need and well-formed pointers, are carried out. */
  lemma OnlyOperations(doc: Json, val: Json)
    requires Apply(doc, val).Ok?
    ensures HasPointer(val, "path") && "op" in val.o
    ensures val.o["op"] in {Str("add"), Str("replace"), Str("test"), Str("remove"), Str("move"), Str("copy")}
    ensures val.o["op"] in {Str("add"), Str("replace"), Str("test")} ==> "value" in val.o
    ensures val.o["op"] in {Str("move"), Str("copy")} ==> HasPointer(val, "from")
  {
    hide Split, OperationAdd, OperationRemove, Edit, EditOpen, At, Equal;
  }

  /** test: goes through, without a change, exactly if there is an equal value at the location. */
  lemma TestIs(doc: Json, val: Json, path: seq<string>, v: Json)
    requires IsOp(val, "test", path) && HasValue(val, v)
    ensures var r, x := Apply(doc, val), At(doc, path);
      && (r.Ok? ==> r.value == doc)
      && (r.Ok? <==> x.Ok? && Equal(x.value, v))
      && (Fits(v) && x.Ok? && Fits(x.value) ==> (r.Ok? <==> Canon(x.value) == Canon(v)))
  {
    hide Split, ToString, At, Equal, Canon, Fits;
    SplitToString(path);
    var x := At(doc, path);
    if Fits(v) && x.Ok? && Fits(x.value) {
      EqualIsCanon(x.value, v);
    }
  }

  /** replace: the location must exist and takes the value. */
  lemma ReplaceIs(doc: Json, val: Json, path: seq<string>, v: Json)
    requires IsOp(val, "replace", path) && HasValue(val, v)
    ensures Apply(doc, val) == if At(doc, path).Ok? then Ok(Set(doc, path, v)) else At(doc, path)
  {
    hide Split, ToString, At, Edit, Set;
    SplitToString(path);
    EditIsSet(doc, path, _ => Ok(v));
  }

  /** add at the root: the document is the value. */
  lemma AddRoot(doc: Json, val: Json, v: Json)
    requires IsOp(val, "add", []) && HasValue(val, v)
    ensures Apply(doc, val) == Ok(v)
  {
    hide Split, ToString;
    SplitToString([]);
  }

  lemma AddApplies(doc: Json, val: Json, path: seq<string>, v: Json)
    requires IsOp(val, "add", path) && HasValue(val, v)
    ensures Apply(doc, val) == OperationAdd(doc, path, v)
  {
    hide Split, ToString, OperationAdd;
    SplitToString(path);
  }

  lemma RemoveApplies(doc: Json, val: Json, path: seq<string>)
    requires IsOp(val, "remove", path)
    ensures Apply(doc, val) == OperationRemove(doc, path)
  {
    hide Split, ToString, OperationRemove;
    SplitToString(path);
  }

  /** The document with the parent of an added or removed element changed. */
  lemma RemoveAt(doc: Json, path: seq<string>, tok: string)
    requires At(doc, path).Ok?
    ensures OperationRemove(doc, path + [tok]) == Landed(doc, path, RemoveChild(At(doc, path).value, tok))
  {
    var p := path + [tok];
    assert p[..|p| - 1] == path && p[|p| - 1] == tok;
    hide At, Edit, Landed, RemoveChild;
    EditIsSet(doc, path, parent => RemoveChild(parent, p[|p| - 1]));
  }

  /** add to an object: the object has the value under this key, and the rest of the document stays. */
  lemma AddToObject(doc: Json, val: Json, path: seq<string>, k: string, v: Json, q: seq<string>)
    requires IsOp(val, "add", path + [k]) && HasValue(val, v)
    requires At(doc, path).Ok? && At(doc, path).value.Obj?
    ensures var r := Apply(doc, val); var o := At(doc, path).value.o;
      && r.Ok? && At(r.value, path) == Ok(Obj(o[k := v])) && At(r.value, path + [k]) == Ok(v)
      && (Apart(doc, path + [k], q) ==> At(r.value, q) == At(doc, q))
  {
    hide IsOp, HasValue, Apply, OperationAdd, At, Set, Apart;
    var o := At(doc, path).value.o;
    AddApplies(doc, val, path + [k], v);
    AddAt(doc, path, k, v);
    ObjectTakes(doc, path, k, o[k := v], q);
  }

  /** A document whose object at a path has changed under key k. */
  lemma ObjectTakes(doc: Json, path: seq<string>, k: string, o: map<string, Json>, q: seq<string>)
    requires At(doc, path).Ok? && At(doc, path).value.Obj?
    requires forall x :: x != k ==>
      (x in o <==> x in At(doc, path).value.o) && (x in o ==> o[x] == At(doc, path).value.o[x])
    ensures var r := Set(doc, path, Obj(o));
      && At(r, path) == Ok(Obj(o)) && At(r, path + [k]) == (if k in o then Ok(o[k]) else Err(OutOfRange))
      && (Apart(doc, path + [k], q) ==> At(r, q) == At(doc, q))
  {
    hide At, Set, Apart;
    var r := Set(doc, path, Obj(o));
    AtSet(doc, path, Obj(o), Obj(o));
    AtStep(r, path, k, Null);
    if Apart(doc, path + [k], q) {
      KeyKeeps(doc, path, k, o, q);
    }
  }

  /** add to an array: at index i <= |a| the element goes in before the i-th, and "-" stands for the end. */
  lemma AddToArray(doc: Json, val: Json, path: seq<string>, tok: string, i: nat, v: Json)
    requires At(doc, path).Ok? && At(doc, path).value.Arr? && i < TWO31
    requires IsOp(val, "add", path + [tok]) && HasValue(val, v)
    requires tok == Digits(i) || (tok == "-" && i == |At(doc, path).value.a|)
    ensures var r, a := Apply(doc, val), At(doc, path).value.a;
      if i <= |a| then r == Ok(Set(doc, path, Arr(a[..i] + [v] + a[i..]))) else r == Err(OutOfRange)
  {
    hide IsOp, HasValue, Apply, OperationAdd, At, Set, Digits, Truncate, CastInt;
    var a := At(doc, path).value.a;
    AddApplies(doc, val, path + [tok], v);
    AddAt(doc, path, tok, v);
    CastDigits(i);
    NotDash(i);
    SmallIndex(i);
    if tok == "-" {
      assert a[..i] + [v] + a[i..] == a + [v];
    }
  }

  lemma SmallIndex(i: nat)
    requires i < TWO31
    ensures Truncate(i) == i && i % TWO64 == i
  {
  }

  /** remove from an object: the key must be there and is gone, and the rest of the document stays. */
  lemma RemoveFromObject(doc: Json, val: Json, path: seq<string>, k: string, q: seq<string>)
    requires IsOp(val, "remove", path + [k]) && At(doc, path).Ok? && At(doc, path).value.Obj?
    ensures var r := Apply(doc, val); var o := At(doc, path).value.o;
      if k !in o then r == Err(OutOfRange)
      else
        && r.Ok? && At(r.value, path) == Ok(Obj(o - {k})) && At(r.value, path + [k]).Err?
        && (Apart(doc, path + [k], q) ==> At(r.value, q) == At(doc, q))
  {
    hide IsOp, Apply, OperationRemove, At, Set, Apart;
    var o := At(doc, path).value.o;
    RemoveApplies(doc, val, path + [k]);
    RemoveAt(doc, path, k);
    if k in o {
      ObjectTakes(doc, path, k, o - {k}, q);
    }
  }

  /** remove from an array: the elements behind move up; an index out of range changes nothing. */
  lemma RemoveFromArray(doc: Json, val: Json, path: seq<string>, i: nat)
    requires IsOp(val, "remove", path + [Digits(i)]) && At(doc, path).Ok? && At(doc, path).value.Arr? && i < TWO64
    ensures var a := At(doc, path).value.a;
      Apply(doc, val) == Ok(if i < |a| then Set(doc, path, Arr(a[..i] + a[i + 1..])) else doc)
  {
    hide IsOp, Apply, OperationRemove, At, Set, Digits;
    RemoveApplies(doc, val, path + [Digits(i)]);
    RemoveAt(doc, path, Digits(i));
    CastDigits(i);
    AtSet(doc, path, Null, Null);
  }

  /** move: the value is removed at `from`, which must exist, and then added at the location. */
  lemma MoveIs(doc: Json, val: Json, from: seq<string>, path: seq<string>, remove: Json, add: Json)
    requires IsOp(val, "move", path) && HasFrom(val, from) && IsOp(remove, "remove", from) && IsOp(add, "add", path)
    requires At(doc, from).Ok? ==> HasValue(add, At(doc, from).value)
    ensures Apply(doc, val) == if At(doc, from).Err? then At(doc, from) else ApplyAll(doc, [remove, add])
  {
    hide ToString, Split, OperationAdd, OperationRemove, At;
    SplitToString(from);
    SplitToString(path);
    RemoveApplies(doc, remove, from);
    assert [remove, add][1..] == [add];
    if At(doc, from).Ok? && OperationRemove(doc, from).Ok? {
      var d := OperationRemove(doc, from).value;
      AddApplies(d, add, path, At(doc, from).value);
      ApplyOne(d, add);
    }
  }

  /** A move between objects: the value is at its new place and not at the old one, and the rest stays. */
  lemma MoveKey(doc: Json, val: Json, from: seq<string>, k: string, path: seq<string>, l: string, q: seq<string>)
    requires IsOp(val, "move", path + [l]) && HasFrom(val, from + [k])
    requires At(doc, from).Ok? && At(doc, from).value.Obj? && k in At(doc, from).value.o
    requires var d := Set(doc, from, Obj(At(doc, from).value.o - {k})); At(d, path).Ok? && At(d, path).value.Obj?
    ensures var d := Set(doc, from, Obj(At(doc, from).value.o - {k}));
      var r := Apply(doc, val);
      && r.Ok? && At(r.value, path + [l]) == Ok(At(doc, from).value.o[k])
      && (Apart(d, path + [l], from + [k]) ==> At(r.value, from + [k]).Err?)
      && (Apart(doc, from + [k], q) && Apart(d, path + [l], q) ==> At(r.value, q) == At(doc, q))
  {
    hide ToString, Apply, ApplyAll, At, Set, Apart;
    var o := At(doc, from).value.o;
    var v, d := o[k], Set(doc, from, Obj(o - {k}));
    var remove, add := RemoveOp(ToString(from + [k])), AddOp(ToString(path + [l]), v);
    AtStep(doc, from, k, v);
    MoveIs(doc, val, from + [k], path + [l], remove, add);
    RemoveApplies(doc, remove, from + [k]);
    RemoveAt(doc, from, k);
    ApplyTwo(doc, remove, d, add);
    AddToObject(d, add, path, l, v, q);
    AddToObject(d, add, path, l, v, from + [k]);
    ObjectTakes(doc, from, k, o - {k}, q);
  }

  lemma ApplyTwo(doc: Json, a: Json, d: Json, b: Json)
    requires Apply(doc, a) == Ok(d)
    ensures ApplyAll(doc, [a, b]) == Apply(d, b)
  {
    hide Apply;
    assert [a, b][1..] == [b];
    ApplyOne(d, b);
  }

  lemma CopyApplies(doc: Json, val: Json, from: seq<string>, path: seq<string>)
    requires IsOp(val, "copy", path) && HasFrom(val, from)
    ensures var x := At(doc, from); Apply(doc, val) == if x.Err? then x else EditOpen(doc, path, _ => Ok(x.value))
  {
    hide ToString, Split, At;
    SplitToString(from);
    SplitToString(path);
  }

  /** copy onto a location that exists: it takes the value at `from`, and what is apart from it stays. */
  lemma CopyOnto(doc: Json, val: Json, from: seq<string>, path: seq<string>, q: seq<string>)
    requires IsOp(val, "copy", path) && HasFrom(val, from) && At(doc, path).Ok?
    ensures var r, x := Apply(doc, val), At(doc, from);
      if x.Err? then r == x
      else
        && r.Ok? && At(r.value, path) == x
        && (Apart(doc, path, q) ==> At(r.value, q) == At(doc, q))
        && (Apart(doc, path, from) ==> At(r.value, from) == x)
  {
    hide IsOp, HasFrom, Apply, EditOpen, Edit, At, Set, Apart;
    var x := At(doc, from);
    CopyApplies(doc, val, from, path);
    if x.Ok? {
      EditOpenIsEdit(doc, path, _ => Ok(x.value));
      EditIsSet(doc, path, _ => Ok(x.value));
      AtSet(doc, path, x.value, x.value);
      if Apart(doc, path, q) { SetKeeps(doc, path, x.value, q); }
      if Apart(doc, path, from) { SetKeeps(doc, path, x.value, from); }
    }
  }

  /** copy to a key of an object: the object has the value under that key, whether it had one or not. */
  lemma CopyToKey(doc: Json, val: Json, from: seq<string>, path: seq<string>, k: string, q: seq<string>)
    requires IsOp(val, "copy", path + [k]) && HasFrom(val, from)
    requires At(doc, path).Ok? && At(doc, path).value.Obj?
    ensures var r, x := Apply(doc, val), At(doc, from);
      if x.Err? then r == x
      else
        && r.Ok? && At(r.value, path) == Ok(Obj(At(doc, path).value.o[k := x.value])) && At(r.value, path + [k]) == x
        && (Apart(doc, path + [k], q) ==> At(r.value, q) == At(doc, q))
        && (Apart(doc, path + [k], from) ==> At(r.value, from) == x)
  {
    hide IsOp, HasFrom, Apply, EditOpen, At, Set, Apart;
    var x := At(doc, from);
    CopyApplies(doc, val, from, path + [k]);
    if x.Ok? {
      OpenKey(doc, path, k, x.value);
      ObjectTakes(doc, path, k, At(doc, path).value.o[k := x.value], q);
      ObjectTakes(doc, path, k, At(doc, path).value.o[k := x.value], from);
    }
  }

  lemma {:induction false} OpenKey(j: Json, path: seq<string>, k: string, v: Json)
    requires At(j, path).Ok? && At(j, path).value.Obj?
    ensures EditOpen(j, path + [k], _ => Ok(v)) == Ok(Set(j, path, Obj(At(j, path).value.o[k := v])))
    decreases |path|
  {
    var p := path + [k];
    if path == [] {
      assert p[1..] == [];
    } else {
      assert p[0] == path[0] && p[1..] == path[1..] + [k];
      OpenKey(Child(j, path[0]).value, path[1..], k, v);
    }
  }

  /** copy to an index of an array: it takes the place of the element, behind the end nulls fill the gap. */
  lemma CopyToIndex(doc: Json, val: Json, from: seq<string>, path: seq<string>, tok: string, i: nat)
    requires IsOp(val, "copy", path + [tok]) && HasFrom(val, from)
    requires At(doc, path).Ok? && At(doc, path).value.Arr? && i < TWO64
    requires tok == Digits(i) || (tok == "-" && i == |At(doc, path).value.a|)
    ensures var r, x, a := Apply(doc, val), At(doc, from), At(doc, path).value.a;
      if x.Err? then r == x
      else if i < |a| then r == Ok(Set(doc, path, Arr(a[i := x.value])))
      else r == Ok(Set(doc, path, Arr(a + seq(i - |a|, _ => Null) + [x.value])))
  {
    hide IsOp, HasFrom, Apply, EditOpen, At, Set, OpenIndex, Digits;
    var x, a := At(doc, from), At(doc, path).value.a;
    CopyApplies(doc, val, from, path + [tok]);
    if x.Ok? {
      TokenIndex(tok, i, |a|);
      OpenPlace(doc, path, tok, i, x.value);
      if i >= |a| {
        assert Filled(a, i)[i := x.value] == a + seq(i - |a|, _ => Null) + [x.value];
      }
    }
  }

  lemma TokenIndex(tok: string, i: nat, n: nat)
    requires i < TWO64 && (tok == Digits(i) || (tok == "-" && i == n))
    ensures OpenIndex(tok, n) == Ok(i)
  {
    hide Digits, CastSize;
    CastDigits(i);
    NotDash(i);
    DigitsValue(i);
  }

  lemma {:induction false} OpenPlace(j: Json, path: seq<string>, tok: string, i: nat, v: Json)
    requires At(j, path).Ok? && At(j, path).value.Arr? && OpenIndex(tok, |At(j, path).value.a|) == Ok(i)
    ensures EditOpen(j, path + [tok], _ => Ok(v)) == Ok(Set(j, path, Arr(Filled(At(j, path).value.a, i)[i := v])))
    decreases |path|
  {
    hide OpenIndex, Filled;
    var p := path + [tok];
    if path == [] {
      assert p[1..] == [];
    } else {
      assert p[0] == path[0] && p[1..] == path[1..] + [tok];
      OpenPlace(Child(j, path[0]).value, path[1..], tok, i, v);
      if j.Arr? {
        OpenChild(j, path[0]);
      }
    }
  }

  lemma OpenChild(j: Json, tok: string)
    requires j.Arr? && Child(j, tok).Ok?
    ensures OpenIndex(tok, |j.a|) == Index(tok, |j.a|) && Filled(j.a, Index(tok, |j.a|).value) == j.a
  {
  }

  /** add below a key that an object does not have: the key gets a new object with the value in it. */
  lemma AddCreates(doc: Json, val: Json, path: seq<string>, k: string, l: string, v: Json)
    requires IsOp(val, "add", path + [k, l]) && HasValue(val, v) && path != []
    requires At(doc, path).Ok? && At(doc, path).value.Obj? && k !in At(doc, path).value.o
    ensures Apply(doc, val) == Ok(Set(doc, path, Obj(At(doc, path).value.o[k := Obj(map[l := v])])))
  {
    hide IsOp, HasValue, Apply, At, Set, EditOpen;
    var p := path + [k, l];
    AddApplies(doc, val, p, v);
    AtFirst(doc, path);
    assert p[0] == path[0] && p[..|p| - 1] == path + [k] && p[|p| - 1] == l;
    OpenMissing(doc, path, k, parent => AddChild(parent, p[|p| - 1], v));
  }

  lemma {:induction false} OpenMissing(j: Json, path: seq<string>, k: string, f: Json -> Result<Json>)
    requires At(j, path).Ok? && At(j, path).value.Obj? && k !in At(j, path).value.o && f(Null).Ok?
    ensures EditOpen(j, path + [k], f) == Ok(Set(j, path, Obj(At(j, path).value.o[k := f(Null).value])))
    decreases |path|
  {
    var p := path + [k];
    if path == [] {
      assert p[1..] == [];
    } else {
      assert p[0] == path[0] && p[1..] == path[1..] + [k];
      OpenMissing(Child(j, path[0]).value, path[1..], k, f);
    }
  }

  /** remove at the root is refused, and below a value that is no object and no array it changes nothing. */
  lemma RemoveElsewhere(doc: Json, val: Json, path: seq<string>)
    requires IsOp(val, "remove", path)
    requires path != [] ==>
      var p := At(doc, path[..|path| - 1]); p.Ok? && !p.value.Obj? && !p.value.Arr?
    ensures Apply(doc, val) == if path == [] then Err(Domain) else Ok(doc)
  {
    hide IsOp, Apply, OperationRemove, At, Set;
    RemoveApplies(doc, val, path);
    if path == [] {
      RemoveRoot(doc);
    } else {
      var n := |path| - 1;
      assert path == path[..n] + [path[n]];
      RemoveAt(doc, path[..n], path[n]);
      AtSet(doc, path[..n], Null, Null);
    }
  }

  lemma RemoveRoot(doc: Json)
    ensures OperationRemove(doc, []) == Err(Domain)
  {
  }

  /** add below a top level that does not exist is refused. */
  lemma AddBelowNothing(doc: Json, val: Json, path: seq<string>, v: Json)
    requires IsOp(val, "add", path) && HasValue(val, v) && |path| > 1 && At(doc, [path[0]]).Err?
    ensures Apply(doc, val) == At(doc, [path[0]])
  {
    hide IsOp, HasValue, Apply, OperationAdd, At;
    AddApplies(doc, val, path, v);
    AddNeedsTop(doc, path, v);
  }

  /** add to a number, a string or a boolean ends the program. */
  lemma AddToScalar(doc: Json, val: Json, path: seq<string>, tok: string, v: Json)
    requires IsOp(val, "add", path + [tok]) && HasValue(val, v) && At(doc, path).Ok?
    requires var p := At(doc, path).value; !p.Obj? && !p.Arr? && !p.Null?
    ensures Apply(doc, val) == Err(Fatal)
  {
    hide IsOp, HasValue, Apply, OperationAdd, At, Set;
    AddApplies(doc, val, path + [tok], v);
    AddAt(doc, path, tok, v);
  }

  lemma AddNeedsTop(doc: Json, path: seq<string>, v: Json)
    requires |path| > 1 && At(doc, [path[0]]).Err?
    ensures OperationAdd(doc, path, v) == At(doc, [path[0]])
  {
    hide At;
  }

  /** add at a negative index of an array: it counts as out of range. */
  lemma AddNegative(doc: Json, val: Json, path: seq<string>, i: nat, v: Json)
    requires At(doc, path).Ok? && At(doc, path).value.Arr? && |At(doc, path).value.a| < TWO63 && 0 < i <= TWO31
    requires IsOp(val, "add", path + ["-" + Digits(i)]) && HasValue(val, v)
    ensures Apply(doc, val) == Err(OutOfRange)
  {
    hide IsOp, HasValue, Apply, OperationAdd, At, Set, Digits, Value;
    AddApplies(doc, val, path + ["-" + Digits(i)], v);
    AddAt(doc, path, "-" + Digits(i), v);
    NegativeIndex(i);
  }

  lemma NegativeIndex(i: nat)
    requires 0 < i <= TWO31
    ensures var k: int := 0 - i; "-" + Digits(i) != "-" && CastInt("-" + Digits(i)) == Ok(k) && k % TWO64 > TWO63
  {
    hide Digits, Value;
    var d := Digits(i);
    var t := "-" + d;
    DigitsValue(i);
    CStrDigits(d);
    assert t[1..] == d;
    CStrMinus(d);
  }

  lemma CStrMinus(d: string)
    ensures CStr("-" + d) == "-" + CStr(d)
  {
    assert ("-" + d)[1..] == d;
  }

  // ----- Whole patches -----

  /** The documents that the operations lead through, one after the other. */
  ghost predicate Leads(docs: seq<Json>, ops: seq<Json>) {
    |docs| == |ops| + 1 && forall i :: 0 <= i < |ops| ==> Apply(docs[i], ops[i]) == Ok(docs[i + 1])
  }

  /** A patch goes through exactly if it is an array whose operations all do, each on what the one before has left. */
  lemma PatchIs(doc: Json, patch: Json, r: Json)
    ensures Patch(doc, patch) == Ok(r) <==>
      patch.Arr? && exists docs :: Leads(docs, patch.a) && docs[0] == doc && docs[|patch.a|] == r
  {
    hide Apply, ApplyAll;
    if Patch(doc, patch) == Ok(r) {
      var docs := LeadsTo(doc, patch.a);
    }
    if patch.Arr? {
      if docs :| Leads(docs, patch.a) && docs[0] == doc && docs[|patch.a|] == r {
        LeadsIs(docs, patch.a);
      }
    }
  }

  lemma {:induction false} LeadsTo(doc: Json, ops: seq<Json>) returns (docs: seq<Json>)
    requires ApplyAll(doc, ops).Ok?
    ensures Leads(docs, ops) && docs[0] == doc && docs[|ops|] == ApplyAll(doc, ops).value
    decreases |ops|
  {
    hide Apply;
    if ops == [] {
      docs := [doc];
    } else {
      var more := LeadsTo(Apply(doc, ops[0]).value, ops[1..]);
      docs := [doc] + more;
      forall i | 0 <= i < |ops|
        ensures Apply(docs[i], ops[i]) == Ok(docs[i + 1])
      {
        if i > 0 {
          assert ops[i] == ops[1..][i - 1] && docs[i] == more[i - 1];
        }
      }
    }
  }

  lemma {:induction false} LeadsIs(docs: seq<Json>, ops: seq<Json>)
    requires Leads(docs, ops)
    ensures ApplyAll(docs[0], ops) == Ok(docs[|ops|])
    decreases |ops|
  {
    hide Apply;
    if ops != [] {
      assert Apply(docs[0], ops[0]) == Ok(docs[1]);
      LeadsIs(docs[1..], ops[1..]);
    }
  }
}
