/** JSON Patch (RFC 6902): resolving pointers in a document, applying a patch, and diff. */
module JsonPatches {
  import opened Basics
  import opened JsonValues
  import opened JsonPointers
  import opened Decimals

  // ----- Locations in a document -----

  /** The array index a token denotes for bounds-checked access. */
  function Index(tok: string, n: nat): (r: Result<nat>)
    ensures r.Ok? ==> r.value < n
  {
    if tok == "-" then Err(OutOfRange)
    else if |tok| > 1 && tok[0] == '0' then Err(Domain)
    else match CastSize(tok)
      case Err(e) => Err(e)
      case Ok(i) => if i < n then Ok(i) else Err(OutOfRange)
  }

  /** The value at a path, with bounds checking (get_checked, inner_at). */
  function At(j: Json, path: seq<string>): (r: Result<Json>)
    decreases |path|
  {
    if path == [] then Ok(j) else
      match Child(j, path[0])
      case Err(e) => Err(e)
      case Ok(c) => At(c, path[1..])
  }

  function Child(j: Json, tok: string): (r: Result<Json>) {
    match j
    case Obj(o) => if tok in o then Ok(o[tok]) else Err(OutOfRange)
    case Arr(a) => (match Index(tok, |a|) case Err(e) => Err(e) case Ok(i) => Ok(a[i]))
    case _ => Err(OutOfRange)
  }

  /** j with its child replaced. */
  function SetChild(j: Json, tok: string, v: Json): Json
    requires Child(j, tok).Ok?
  {
    match j
    case Obj(o) => Obj(o[tok := v])
    case Arr(a) => Arr(a[Index(tok, |a|).value := v])
  }

  /** j with the value at a path replaced. */
  function Set(j: Json, path: seq<string>, v: Json): Json
    requires At(j, path).Ok?
    decreases |path|
  {
    if path == [] then v else SetChild(j, path[0], Set(Child(j, path[0]).value, path[1..], v))
  }

  lemma ChildOfSet(j: Json, tok: string, v: Json, w: Json)
    requires Child(j, tok).Ok?
    ensures Child(SetChild(j, tok, v), tok) == Ok(v)
    ensures SetChild(SetChild(j, tok, v), tok, w) == SetChild(j, tok, w)
    ensures SetChild(j, tok, Child(j, tok).value) == j
  {
  }

  /** What has been set is found there; a second setting overrides the first. */
  lemma {:induction false} AtSet(j: Json, path: seq<string>, v: Json, w: Json)
    requires At(j, path).Ok?
    ensures At(Set(j, path, v), path) == Ok(v)
    ensures Set(Set(j, path, v), path, w) == Set(j, path, w)
    ensures Set(j, path, At(j, path).value) == j
    decreases |path|
  {
    if path != [] {
      var c := Child(j, path[0]).value;
      AtSet(c, path[1..], v, w);
      ChildOfSet(j, path[0], Set(c, path[1..], v), Set(c, path[1..], w));
      ChildOfSet(j, path[0], c, c);
    }
  }

  /** A longer path goes through the shorter one. */
  lemma {:induction false} AtStep(j: Json, path: seq<string>, tok: string, v: Json)
    requires At(j, path).Ok?
    ensures At(j, path + [tok]) == Child(At(j, path).value, tok)
    ensures Child(At(j, path).value, tok).Ok? ==>
      Set(j, path + [tok], v) == Set(j, path, SetChild(At(j, path).value, tok, v))
    decreases |path|
  {
    var p := path + [tok];
    if path == [] {
      assert p[1..] == [];
    } else {
      assert p[1..] == path[1..] + [tok];
      AtStep(Child(j, path[0]).value, path[1..], tok, v);
    }
  }

  lemma AtFirst(j: Json, path: seq<string>)
    requires At(j, path).Ok? && path != []
    ensures At(j, [path[0]]).Ok?
  {
    assert [path[0]][1..] == [];
  }

  // ----- Editing in place -----

  /** Follows a path with bounds checking and edits what it leads to. */
  function Edit(j: Json, path: seq<string>, f: Json -> Result<Json>): (r: Result<Json>)
    decreases |path|
  {
    if path == [] then f(j) else
      match Child(j, path[0])
      case Err(e) => Err(e)
      case Ok(c) => match Edit(c, path[1..], f)
        case Err(e) => Err(e)
        case Ok(d) => Ok(SetChild(j, path[0], d))
  }

  /** The document with the outcome of an edit put at the path, or the edit's fault. */
  function Landed(j: Json, path: seq<string>, r: Result<Json>): Result<Json>
    requires At(j, path).Ok?
  {
    if r.Ok? then Ok(Set(j, path, r.value)) else r
  }

  lemma {:induction false} EditIsSet(j: Json, path: seq<string>, f: Json -> Result<Json>)
    ensures At(j, path).Err? ==> Edit(j, path, f) == At(j, path)
    ensures At(j, path).Ok? ==> Edit(j, path, f) == Landed(j, path, f(At(j, path).value))
    decreases |path|
  {
    if path != [] && Child(j, path[0]).Ok? {
      EditIsSet(Child(j, path[0]).value, path[1..], f);
    }
  }

  /** The array index a token denotes for unchecked access; "-" is the index behind the end. */
  function OpenIndex(tok: string, n: nat): (r: Result<nat>) {
    if |tok| > 1 && tok[0] == '0' then Err(Domain)
    else if tok == "-" then Ok(n)
    else CastSize(tok)
  }

  /** a with nulls added so that index i exists. */
  function Filled(a: seq<Json>, i: nat): (b: seq<Json>)
    ensures |b| > i && a <= b
  {
    if i < |a| then a else a + seq(i + 1 - |a|, k => Null)
  }

  /** Follows a path without bounds checking, creating what is missing (get_unchecked), and edits there. */
  function EditOpen(j: Json, path: seq<string>, f: Json -> Result<Json>): (r: Result<Json>)
    decreases |path|
  {
    if path == [] then f(j) else
      match j
      case Obj(o) =>
        (match EditOpen(if path[0] in o then o[path[0]] else Null, path[1..], f)
         case Err(e) => Err(e)
         case Ok(d) => Ok(Obj(o[path[0] := d])))
      case Arr(a) =>
        (match OpenIndex(path[0], |a|)
         case Err(e) => Err(e)
         case Ok(i) => match EditOpen(Filled(a, i)[i], path[1..], f)
           case Err(e) => Err(e)
           case Ok(d) => Ok(Arr(Filled(a, i)[i := d])))
      case _ => Err(OutOfRange)
  }

  /** Where the path exists, unchecked access is checked access. */
  lemma {:induction false} EditOpenIsEdit(j: Json, path: seq<string>, f: Json -> Result<Json>)
    requires At(j, path).Ok?
    ensures EditOpen(j, path, f) == Edit(j, path, f)
    decreases |path|
  {
    if path != [] {
      EditOpenIsEdit(Child(j, path[0]).value, path[1..], f);
    }
  }

  // ----- The patch operations -----

  /** parent[last] = val, push_back or insert, as operation_add chooses. */
  function AddChild(parent: Json, last: string, val: Json): (r: Result<Json>) {
    match parent
    case Null => Ok(Obj(map[last := val]))
    case Obj(o) => Ok(Obj(o[last := val]))
    case Arr(a) =>
      if last == "-" then Ok(Arr(a + [val]))
      else (match CastInt(last)
        case Err(e) => Err(e)
        case Ok(i) =>
          // the comparison is between unsigned numbers, so a negative index is a huge one
          if i % TWO64 > |a| then Err(OutOfRange) else Ok(Arr(a[..i % TWO64] + [val] + a[i % TWO64..])))
    case _ => Err(Fatal)
  }

  function OperationAdd(doc: Json, path: seq<string>, val: Json): (r: Result<Json>) {
    if path == [] then Ok(val)
    else if |path| > 1 && At(doc, [path[0]]).Err? then At(doc, [path[0]])
    else
      var n := |path| - 1;
      EditOpen(doc, path[..n], parent => AddChild(parent, path[n], val))
  }

  function RemoveChild(parent: Json, last: string): (r: Result<Json>) {
    match parent
    case Obj(o) => if last in o then Ok(Obj(o - {last})) else Err(OutOfRange)
    case Arr(a) =>
      (match CastSize(last)
       case Err(e) => Err(e)
       // an index out of range is only logged
       case Ok(i) => if i < |a| then Ok(Arr(a[..i] + a[i + 1..])) else Ok(parent))
    case _ => Ok(parent)
  }

  function OperationRemove(doc: Json, path: seq<string>): (r: Result<Json>) {
    if path == [] then Err(Domain)
    else
      var n := |path| - 1;
      Edit(doc, path[..n], parent => RemoveChild(parent, path[n]))
  }

  /** A member of a patch operation, which may have to be a string. */
  function Member(val: Json, name: string, stringType: bool): (r: Result<Json>)
    requires val.Obj?
  {
    if name !in val.o then Err(Invalid)
    else if stringType && !val.o[name].Str? then Err(Invalid)
    else Ok(val.o[name])
  }

  /** The value or path of an operation, or the exception its absence raises. */
  function PathMember(val: Json, name: string): (r: Result<seq<string>>)
    requires val.Obj?
  {
    match Member(val, name, true)
    case Err(e) => Err(e)
    case Ok(p) => if p.Str? then Split(p.s) else Err(Invalid)
  }

  /** One operation of a patch. */
  function Apply(doc: Json, val: Json): (r: Result<Json>) {
    if !val.Obj? then Err(Invalid) else
    match Member(val, "op", true)
    case Err(e) => Err(e)
    case Ok(opj) => if !opj.Str? then Err(Invalid) else
    match PathMember(val, "path")
    case Err(e) => Err(e)
    case Ok(path) =>
      var op := opj.s;
      if op == "add" then
        (match Member(val, "value", false) case Err(e) => Err(e) case Ok(v) => OperationAdd(doc, path, v))
      else if op == "remove" then OperationRemove(doc, path)
      else if op == "replace" then
        (match Member(val, "value", false) case Err(e) => Err(e) case Ok(v) => Edit(doc, path, _ => Ok(v)))
      else if op == "move" then
        (match PathMember(val, "from")
         case Err(e) => Err(e)
         case Ok(from) => match At(doc, from)
           case Err(e) => Err(e)
           case Ok(v) => match OperationRemove(doc, from)
             case Err(e) => Err(e)
             case Ok(d) => OperationAdd(d, path, v))
      else if op == "copy" then
        (match PathMember(val, "from")
         case Err(e) => Err(e)
         case Ok(from) => match At(doc, from)
           case Err(e) => Err(e)
           case Ok(v) => EditOpen(doc, path, _ => Ok(v)))
      else if op == "test" then
        (match Member(val, "value", false)
         case Err(e) => Err(e)
         case Ok(v) => match At(doc, path)
           case Err(e) => Err(if e == OutOfRange then Domain else e)
           case Ok(x) => if Equal(x, v) then Ok(doc) else Err(Domain))
      else Err(Invalid)
  }

  function ApplyAll(doc: Json, ops: seq<Json>): (r: Result<Json>)
    decreases |ops|
  {
    if ops == [] then Ok(doc) else
      match Apply(doc, ops[0])
      case Err(e) => Err(e)
      case Ok(d) => ApplyAll(d, ops[1..])
  }

  function Patch(doc: Json, patch: Json): (r: Result<Json>) {
    if patch.Arr? then ApplyAll(doc, patch.a) else Err(Invalid)
  }

  lemma {:induction false} ApplyConcat(doc: Json, a: seq<Json>, b: seq<Json>)
    ensures ApplyAll(doc, a + b) == match ApplyAll(doc, a) case Err(e) => Err(e) case Ok(d) => ApplyAll(d, b)
    decreases |a|
  {
    if a == [] {
      assert a + b == b;
    } else {
      assert (a + b)[0] == a[0] && (a + b)[1..] == a[1..] + b;
      if Apply(doc, a[0]).Ok? { ApplyConcat(Apply(doc, a[0]).value, a[1..], b); }
    }
  }

  lemma ApplyOne(doc: Json, op: Json)
    ensures ApplyAll(doc, [op]) == Apply(doc, op)
  {
    assert [op][1..] == [];
  }

  /** patch: the operations edit a working copy one after the other. */
  method PatchLoop(doc: Json, patch: Json) returns (r: Result<Json>)
    ensures r == Patch(doc, patch)
  {
    hide Apply;
    if !patch.Arr? {
      return Err(Invalid);
    }
    var result := doc;
    var i := 0;
    while i < |patch.a|
      invariant 0 <= i <= |patch.a|
      invariant ApplyAll(doc, patch.a) == ApplyAll(result, patch.a[i..])
    {
      var step := Apply(result, patch.a[i]);
      assert patch.a[i..][1..] == patch.a[i + 1..];
      if step.Err? {
        return step;
      }
      result := step.value;
      i := i + 1;
    }
    r := Ok(result);
  }

  // ----- diff -----

  function ReplaceOp(path: string, v: Json): Json {
    Obj(map["op" := Str("replace"), "path" := Str(path), "value" := v])
  }

  function AddOp(path: string, v: Json): Json {
    Obj(map["op" := Str("add"), "path" := Str(path), "value" := v])
  }

  function RemoveOp(path: string): Json {
    Obj(map["op" := Str("remove"), "path" := Str(path)])
  }

  function Min(a: nat, b: nat): nat {
    if a < b then a else b
  }

  /** The operations that diff lists for source, target and the path that leads to them. */
  ghost function Diff(source: Json, target: Json, path: string): (ops: seq<Json>)
    decreases source, 1, 0
  {
    if Equal(source, target) then []
    else if !SameType(source, target) then [ReplaceOp(path, target)]
    else match source
      case Arr(a) =>
        var b := target.a;
        DiffItems(source, target, path, Min(|a|, |b|)) + Removals(path, |b|, |a|) + Additions(path, b, |a|)
      case Obj(o) =>
        DiffKeys(source, target, path, SortedKeys(o.Keys)) + NewKeys(o, target.o, path, SortedKeys(target.o.Keys))
      case _ => [ReplaceOp(path, target)]
  }

  /** The first n common elements. */
  ghost function DiffItems(source: Json, target: Json, path: string, n: nat): (ops: seq<Json>)
    requires source.Arr? && target.Arr? && n <= |source.a| && n <= |target.a|
    decreases source, 0, n
  {
    if n == 0 then [] else
      DiffItems(source, target, path, n - 1) + Diff(source.a[n - 1], target.a[n - 1], path + "/" + Digits(n - 1))
  }

  /** Removals of the elements from..to-1, last one first. */
  function Removals(path: string, from: nat, to: nat): (ops: seq<Json>)
    decreases to
  {
    if to <= from then [] else [RemoveOp(path + "/" + Digits(to - 1))] + Removals(path, from, to - 1)
  }

  /** Additions of the elements of b from index i on. */
  function Additions(path: string, b: seq<Json>, i: nat): (ops: seq<Json>)
    decreases |b| - i
  {
    if i >= |b| then [] else [AddOp(path + "/" + Digits(i), b[i])] + Additions(path, b, i + 1)
  }

  /** The source's keys: compared with the target where it has them, removed otherwise. */
  ghost function DiffKeys(source: Json, target: Json, path: string, ks: seq<string>): (ops: seq<Json>)
    requires source.Obj? && target.Obj? && forall k :: k in ks ==> k in source.o
    decreases source, 0, |ks|
  {
    if ks == [] then [] else
      var k := ks[0];
      (if k in target.o
       then Diff(source.o[k], target.o[k], path + "/" + Escape(k))
       else [RemoveOp(path + "/" + Escape(k))])
      + DiffKeys(source, target, path, ks[1..])
  }

  /** The keys that only the target has. */
  function NewKeys(o: map<string, Json>, t: map<string, Json>, path: string, ks: seq<string>): (ops: seq<Json>)
    requires forall k :: k in ks ==> k in t
  {
    if ks == [] then [] else
      (if ks[0] in o then [] else [AddOp(path + "/" + Escape(ks[0]), t[ks[0]])]) + NewKeys(o, t, path, ks[1..])
  }

  /** The diff is empty exactly if the two values are equal. */
  lemma {:induction false} DiffEmpty(s: Json, t: Json, p: string)
    ensures Diff(s, t, p) == [] <==> Equal(s, t)
    decreases s, 1
  {
    if !Equal(s, t) && Diff(s, t, p) == [] {
      match (s, t)
      case (Arr(a), Arr(b)) => DiffArrayNot(s, t, p);
      case (Obj(a), Obj(b)) => DiffObjectNot(s, t, p);
      case _ => assert false;
    }
  }

  lemma {:induction false} DiffArrayNot(s: Json, t: Json, p: string)
    requires s.Arr? && t.Arr? && !Equal(s, t)
    ensures Diff(s, t, p) != []
    decreases s, 0
  {
    var a, b := s.a, t.a;
    if |a| == |b| {
      var i :| 0 <= i < |a| && !Equal(a[i], b[i]);
      DiffEmpty(a[i], b[i], p + "/" + Digits(i));
      DiffItemsAt(s, t, p, |a|, i);
    }
  }

  lemma {:induction false} DiffItemsAt(s: Json, t: Json, p: string, n: nat, i: nat)
    requires s.Arr? && t.Arr? && i < n <= |s.a| && n <= |t.a| && Diff(s.a[i], t.a[i], p + "/" + Digits(i)) != []
    ensures DiffItems(s, t, p, n) != []
    decreases n
  {
    hide Diff, Digits;
    if i < n - 1 {
      DiffItemsAt(s, t, p, n - 1, i);
    }
  }

  lemma {:induction false} DiffObjectNot(s: Json, t: Json, p: string)
    requires s.Obj? && t.Obj? && !Equal(s, t)
    ensures Diff(s, t, p) != []
    decreases s, 0
  {
    var a, b := s.o, t.o;
    if k :| k in a && (k !in b || !Equal(a[k], b[k])) {
      if k in b {
        DiffEmpty(a[k], b[k], p + "/" + Escape(k));
      }
      DiffKeysAt(s, t, p, SortedKeys(a.Keys), k);
    } else {
      var k :| k in b && k !in a;
      NewKeysAt(a, b, p, SortedKeys(b.Keys), k);
    }
  }

  lemma {:induction false} DiffKeysAt(s: Json, t: Json, p: string, ks: seq<string>, k: string)
    requires s.Obj? && t.Obj? && k in ks && forall x :: x in ks ==> x in s.o
    requires k in t.o ==> Diff(s.o[k], t.o[k], p + "/" + Escape(k)) != []
    ensures DiffKeys(s, t, p, ks) != []
    decreases |ks|
  {
    hide Diff, Escape;
    if ks[0] != k {
      assert ks == [ks[0]] + ks[1..];
      DiffKeysAt(s, t, p, ks[1..], k);
    }
  }

  lemma {:induction false} NewKeysAt(o: map<string, Json>, t: map<string, Json>, p: string, ks: seq<string>, k: string)
    requires k in ks && k !in o && forall x :: x in ks ==> x in t
    ensures NewKeys(o, t, p, ks) != []
    decreases |ks|
  {
    hide Escape;
    if ks[0] != k {
      assert ks == [ks[0]] + ks[1..];
      NewKeysAt(o, t, p, ks[1..], k);
    }
  }

  // ----- What the patched value is, and when the patch goes through -----

  /** The source with everything changed that differs from the target. */
  ghost function Merge(s: Json, t: Json): (r: Json)
    decreases s
  {
    if Equal(s, t) then s
    else match (s, t)
      case (Arr(a), Arr(b)) =>
        Arr(seq(|b|, i requires 0 <= i < |b| => if i < |a| then Merge(a[i], b[i]) else b[i]))
      case (Obj(a), Obj(b)) =>
        Obj(map k | k in b :: if k in a then Merge(a[k], b[k]) else b[k])
      case _ => t
  }

  /** The merged value equals the target. */
  lemma {:induction false} MergeEqual(s: Json, t: Json)
    ensures Equal(Merge(s, t), t)
    decreases s
  {
    if !Equal(s, t) {
      match (s, t)
      case (Arr(a), Arr(b)) =>
        var m := Merge(s, t).a;
        forall i | 0 <= i < |b|
          ensures Equal(m[i], b[i])
        {
          if i < |a| { MergeEqual(a[i], b[i]); } else { EqualReflexive(b[i]); }
        }
      case (Obj(a), Obj(b)) =>
        var m := Merge(s, t).o;
        forall k | k in b
          ensures Equal(m[k], b[k])
        {
          if k in a { MergeEqual(a[k], b[k]); } else { EqualReflexive(b[k]); }
        }
      case _ => EqualReflexive(t);
    }
  }

  /** And it is the target, up to the signedness of its numbers. */
  lemma {:induction false} MergeCanon(s: Json, t: Json)
    requires Fits(s) && Fits(t)
    ensures Canon(Merge(s, t)) == Canon(t)
    decreases s
  {
    if Equal(s, t) {
      EqualIsCanon(s, t);
    } else {
      match (s, t)
      case (Arr(a), Arr(b)) =>
        var m := Merge(s, t).a;
        forall i | 0 <= i < |b|
          ensures Canon(m[i]) == Canon(b[i])
        {
          if i < |a| { MergeCanon(a[i], b[i]); }
        }
        assert Canon(Merge(s, t)).a == Canon(t).a;
      case (Obj(a), Obj(b)) =>
        var m := Merge(s, t).o;
        forall k | k in b
          ensures Canon(m[k]) == Canon(b[k])
        {
          if k in a { MergeCanon(a[k], b[k]); }
        }
        assert Canon(Merge(s, t)).o == Canon(t).o;
      case _ =>
    }
  }

  /** An array that has to grow only grows up to 2^31 elements. */
  ghost predicate GrowthFits(s: Json, t: Json)
    decreases s
  {
    Equal(s, t) || match (s, t)
      case (Arr(a), Arr(b)) =>
        (forall i :: 0 <= i < |a| && i < |b| ==> GrowthFits(a[i], b[i])) && (|b| <= |a| || |b| <= TWO31)
      case (Obj(a), Obj(b)) => forall k :: k in a && k in b ==> GrowthFits(a[k], b[k])
      case _ => true
  }

  /** Whether the index of an element to be added at the end is a place in the array after it is cut to 32 bits. */
  predicate IndexFits(i: nat) {
    i < TWO63 && i % TWO32 < TWO31
  }

  ghost predicate AddedFit(from: nat, to: nat) {
    forall i :: from <= i < to ==> IndexFits(i)
  }

  /** Whether the patch goes through: the index of every added element fits. */
  ghost predicate IndicesFit(s: Json, t: Json)
    decreases s
  {
    Equal(s, t) || match (s, t)
      case (Arr(a), Arr(b)) =>
        (forall i :: 0 <= i < |a| && i < |b| ==> IndicesFit(a[i], b[i])) && AddedFit(|a|, |b|)
      case (Obj(a), Obj(b)) => forall k :: k in a && k in b ==> IndicesFit(a[k], b[k])
      case _ => true
  }

  /** Where the elements to be added to n elements go: to the index n, cut to 32 bits. */
  function Place(n: nat): (i: nat)
    ensures i <= n && (n < TWO32 ==> i == n)
  {
    n % TWO32
  }

  /** The elements x with those that b has beyond them put in at their place. */
  function Extended(x: seq<Json>, b: seq<Json>): (r: seq<Json>)
    requires |x| <= |b|
    ensures |r| == |b|
  {
    x[..Place(|x|)] + b[|x|..] + x[Place(|x|)..]
  }

  /** What the patch makes of the source, if it goes through. */
  ghost function Patched(s: Json, t: Json): (r: Json)
    decreases s
  {
    if Equal(s, t) then s
    else match (s, t)
      case (Arr(a), Arr(b)) =>
        if |b| <= |a| then Arr(seq(|b|, i requires 0 <= i < |b| => Patched(a[i], b[i])))
        else Arr(Extended(seq(|a|, i requires 0 <= i < |a| => Patched(a[i], b[i])), b))
      case (Obj(a), Obj(b)) =>
        Obj(map k | k in b :: if k in a then Patched(a[k], b[k]) else b[k])
      case _ => t
  }

  /** Every array of the document has fewer than n elements. */
  ghost predicate ArraysBelow(j: Json, n: int)
    decreases j
  {
    match j
    case Arr(a) => |a| < n && forall i :: 0 <= i < |a| ==> ArraysBelow(a[i], n)
    case Obj(o) => forall k :: k in o ==> ArraysBelow(o[k], n)
    case _ => true
  }

  // ----- Applying what diff lists -----

  lemma PathStep(path: seq<string>, tok: string)
    ensures ToString(path + [tok]) == ToString(path) + "/" + Escape(tok)
  {
    assert (path + [tok])[..|path|] == path;
  }

  lemma ApplyReplace(doc: Json, path: seq<string>, v: Json)
    requires At(doc, path).Ok?
    ensures Apply(doc, ReplaceOp(ToString(path), v)) == Ok(Set(doc, path, v))
  {
    hide Split, ToString;
    SplitToString(path);
    EditIsSet(doc, path, _ => Ok(v));
  }

  lemma ApplyRemove(doc: Json, path: seq<string>, tok: string)
    requires At(doc, path).Ok?
    ensures Apply(doc, RemoveOp(ToString(path) + "/" + Escape(tok))) ==
      Landed(doc, path, RemoveChild(At(doc, path).value, tok))
  {
    hide Split, ToString, Escape;
    var p := path + [tok];
    PathStep(path, tok);
    SplitToString(p);
    assert p[..|p| - 1] == path && p[|p| - 1] == tok;
    EditIsSet(doc, path, parent => RemoveChild(parent, p[|p| - 1]));
  }

  lemma ApplyAdd(doc: Json, path: seq<string>, tok: string, v: Json)
    requires At(doc, path).Ok?
    ensures Apply(doc, AddOp(ToString(path) + "/" + Escape(tok), v)) ==
      Landed(doc, path, AddChild(At(doc, path).value, tok, v))
  {
    hide Apply, OperationAdd, AddOp, Split, ToString, Escape, Landed, AddChild, At;
    PathStep(path, tok);
    SplitToString(path + [tok]);
    AddOpIs(doc, ToString(path + [tok]), v);
    AddAt(doc, path, tok, v);
  }

  lemma AddOpIs(doc: Json, pointer: string, v: Json)
    requires Split(pointer).Ok?
    ensures Apply(doc, AddOp(pointer, v)) == OperationAdd(doc, Split(pointer).value, v)
  {
    hide Split, OperationAdd;
  }

  lemma AddAt(doc: Json, path: seq<string>, tok: string, v: Json)
    requires At(doc, path).Ok?
    ensures OperationAdd(doc, path + [tok], v) == Landed(doc, path, AddChild(At(doc, path).value, tok, v))
  {
    var p := path + [tok];
    assert p[..|p| - 1] == path && p[|p| - 1] == tok;
    if path != [] {
      AtFirst(doc, path);
      assert p[0] == path[0];
    }
    hide At, EditOpen, Edit, AddChild, Landed;
    var f := parent => AddChild(parent, p[|p| - 1], v);
    EditOpenIsEdit(doc, path, f);
    EditIsSet(doc, path, f);
  }

  lemma IndexDigits(i: nat, n: nat)
    requires i < n && n <= TWO64
    ensures Index(Digits(i), n) == Ok(i) && CastSize(Digits(i)) == Ok(i)
  {
    CastDigits(i);
    DigitsValue(i);
    assert IsDigit(Digits(i)[0]);
  }

  /** The elements of the source, the first n of them merged. */
  ghost function Prefix(a: seq<Json>, b: seq<Json>, n: nat): (m: seq<Json>)
    requires n <= |a| && n <= |b|
  {
    seq(|a|, i requires 0 <= i < |a| => if i < n then Patched(a[i], b[i]) else a[i])
  }

  ghost predicate PrefixFits(a: seq<Json>, b: seq<Json>, n: nat)
    requires n <= |a| && n <= |b|
  {
    forall i :: 0 <= i < n ==> IndicesFit(a[i], b[i])
  }

  lemma RemoveLast(doc: Json, path: seq<string>, x: seq<Json>)
    requires At(doc, path) == Ok(Arr(x)) && 0 < |x| < TWO64
    ensures var n := |x| - 1;
      Apply(doc, RemoveOp(ToString(path) + "/" + Digits(n))) == Ok(Set(doc, path, Arr(x[..n])))
  {
    hide Apply, ToString, At, Set, Escape, Digits;
    var n := |x| - 1;
    ApplyRemove(doc, path, Digits(n));
    EscapeDigits(Digits(n));
    IndexDigits(n, n + 1);
    assert x[..n] + x[n + 1..] == x[..n];
  }

  /** Removing elements from the end on. */
  lemma {:induction false} ApplyRemovals(doc: Json, path: seq<string>, x: seq<Json>, from: nat)
    requires At(doc, path) == Ok(Arr(x)) && from <= |x| < TWO64
    ensures ApplyAll(doc, Removals(ToString(path), from, |x|)) == Ok(Set(doc, path, Arr(x[..from])))
    decreases |x|
  {
    hide Apply, ToString, At, Set, Escape, Digits, RemoveOp;
    var p, n := ToString(path), |x|;
    if n == from {
      AtSet(doc, path, Arr(x), Arr(x));
      assert x[..from] == x;
    } else {
      hide ApplyAll;
      var y := x[..n - 1];
      RemoveLast(doc, path, x);
      var d := Set(doc, path, Arr(y));
      AtSet(doc, path, Arr(y), Arr(x[..from]));
      ApplyRemovals(d, path, y, from);
      assert y[..from] == x[..from];
      assert Removals(p, from, n) == [RemoveOp(p + "/" + Digits(n - 1))] + Removals(p, from, n - 1);
      ApplyConcat(doc, [RemoveOp(p + "/" + Digits(n - 1))], Removals(p, from, n - 1));
      ApplyOne(doc, RemoveOp(p + "/" + Digits(n - 1)));
    }
  }

  /** Adding elements at the end; the index of each is cut down to 32 bits. */
  lemma {:induction false} ApplyAdditions(doc: Json, path: seq<string>, x: seq<Json>, b: seq<Json>)
    requires At(doc, path) == Ok(Arr(x)) && |x| <= |b|
    ensures AddedFit(|x|, |b|) ==>
      ApplyAll(doc, Additions(ToString(path), b, |x|)) == Ok(Set(doc, path, Arr(Extended(x, b))))
    ensures !AddedFit(|x|, |b|) ==> ApplyAll(doc, Additions(ToString(path), b, |x|)).Err?
    decreases |b| - |x|
  {
    hide Apply, ToString, At, Set, Escape, Digits, AddOp, Extended, IndexFits;
    var p, i := ToString(path), |x|;
    if i == |b| {
      ExtendedBy(x, b);
      AtSet(doc, path, Arr(x), Arr(x));
    } else {
      hide ApplyAll;
      var op := AddOp(p + "/" + Digits(i), b[i]);
      AppendOne(doc, path, x, b[i]);
      assert Additions(p, b, i) == [op] + Additions(p, b, i + 1);
      ApplyConcat(doc, [op], Additions(p, b, i + 1));
      ApplyOne(doc, op);
      if IndexFits(i) {
        var y := Inserted(x, b[i]);
        AtSet(doc, path, Arr(y), Arr(Extended(y, b)));
        ApplyAdditions(Set(doc, path, Arr(y)), path, y, b);
        ExtendedBy(x, b);
        assert AddedFit(i, |b|) <==> AddedFit(i + 1, |b|);
      }
    }
  }

  function Inserted(x: seq<Json>, v: Json): (r: seq<Json>)
    ensures |r| == |x| + 1
  {
    x[..Place(|x|)] + [v] + x[Place(|x|)..]
  }

  /** While the indices fit, each added element goes behind the one added before. */
  lemma ExtendedBy(x: seq<Json>, b: seq<Json>)
    requires |x| <= |b|
    ensures |x| == |b| ==> Extended(x, b) == x
    ensures |x| < |b| && AddedFit(|x|, |b|) ==> Extended(Inserted(x, b[|x|]), b) == Extended(x, b)
  {
    var n, i := |x|, Place(|x|);
    if n < |b| && AddedFit(n, |b|) {
      var y := Inserted(x, b[n]);
      assert IndexFits(n);
      PlaceNext(n);
      assert y[..i + 1] == x[..i] + [b[n]] && y[i + 1..] == x[i..];
      assert b[n..] == [b[n]] + b[n + 1..];
      if n + 1 == |b| {
        assert Extended(y, b) == y;
      }
    }
  }

  lemma PlaceNext(n: nat)
    requires IndexFits(n)
    ensures Place(n + 1) == Place(n) + 1
  {
  }

  lemma AppendOne(doc: Json, path: seq<string>, x: seq<Json>, v: Json)
    requires At(doc, path) == Ok(Arr(x))
    ensures var r := Apply(doc, AddOp(ToString(path) + "/" + Digits(|x|), v));
      if IndexFits(|x|) then r == Ok(Set(doc, path, Arr(Inserted(x, v)))) else r.Err?
  {
    hide Apply, ToString, At, Set, Escape, Digits, AddOp, AddChild;
    ApplyAdd(doc, path, Digits(|x|), v);
    EscapeDigits(Digits(|x|));
    AddAtEnd(x, v);
  }

  lemma AddAtEnd(x: seq<Json>, v: Json)
    ensures var r := AddChild(Arr(x), Digits(|x|), v);
      if IndexFits(|x|) then r == Ok(Arr(Inserted(x, v))) else r.Err?
  {
    hide CastInt, Truncate, Digits, AddChild, Inserted;
    var n := |x|;
    CastDigits(n);
    NotDash(n);
    if n < TWO63 {
      TruncateCases(n);
      InsertAt(x, Digits(n), v, Truncate(n));
    } else {
      NoIndex(x, Digits(n), v);
    }
  }

  lemma InsertAt(x: seq<Json>, tok: string, v: Json, i: int)
    requires tok != "-" && CastInt(tok) == Ok(i)
    ensures i % TWO64 == Place(|x|) ==> AddChild(Arr(x), tok, v) == Ok(Arr(Inserted(x, v)))
    ensures i % TWO64 > |x| ==> AddChild(Arr(x), tok, v) == Err(OutOfRange)
  {
    hide CastInt;
  }

  lemma NoIndex(x: seq<Json>, tok: string, v: Json)
    requires tok != "-" && CastInt(tok).Err?
    ensures AddChild(Arr(x), tok, v).Err?
  {
    hide CastInt;
  }

  lemma TruncateCases(n: nat)
    requires n < TWO63
    ensures IndexFits(n) ==> Truncate(n) % TWO64 == Place(n)
    ensures !IndexFits(n) ==> Truncate(n) % TWO64 > n
  {
  }

  lemma NotDash(n: nat)
    ensures Digits(n) != "-"
  {
    assert IsDigit(Digits(n)[0]);
  }

  // ----- The law: patching with the diff gives the target -----

  /** What the key pass of diff leaves of an object. */
  ghost function Compared(cur: map<string, Json>, s: map<string, Json>, t: map<string, Json>,
                          ks: seq<string>): (m: map<string, Json>)
    requires forall k :: k in ks ==> k in s
  {
    map k | k in cur && (k in ks ==> k in t) :: if k in ks then Patched(s[k], t[k]) else cur[k]
  }

  ghost predicate KeysFit(s: map<string, Json>, t: map<string, Json>, ks: seq<string>)
    requires forall k :: k in ks ==> k in s
  {
    forall k :: k in ks && k in t ==> IndicesFit(s[k], t[k])
  }

  /** The entries of t, among the listed keys, that o does not have. */
  ghost function Fresh(o: map<string, Json>, t: map<string, Json>, ks: seq<string>): (m: map<string, Json>)
    requires forall k :: k in ks ==> k in t
  {
    map k | k in ks && k !in o :: t[k]
  }

  /** Adding the keys that only the target has. */
  lemma {:induction false} ApplyNewKeys(doc: Json, path: seq<string>, cur: map<string, Json>,
                                        o: map<string, Json>, t: map<string, Json>, ks: seq<string>)
    requires At(doc, path) == Ok(Obj(cur)) && forall k :: k in ks ==> k in t
    requires forall i, j :: 0 <= i < j < |ks| ==> ks[i] != ks[j]
    ensures ApplyAll(doc, NewKeys(o, t, ToString(path), ks)) == Ok(Set(doc, path, Obj(cur + Fresh(o, t, ks))))
    decreases |ks|
  {
    hide Apply, ApplyAll, ToString, At, Set, Escape, NewKeys, Fresh;
    var p := ToString(path);
    NewKeysStep(cur, o, t, p, ks);
    if ks == [] {
      AtSet(doc, path, Obj(cur), Obj(cur));
      ApplyNone(doc);
    } else if ks[0] in o {
      ApplyNewKeys(doc, path, cur, o, t, ks[1..]);
    } else {
      var k, rest := ks[0], ks[1..];
      var op := AddOp(p + "/" + Escape(k), t[k]);
      ApplyConcat(doc, [op], NewKeys(o, t, p, rest));
      ApplyOne(doc, op);
      ApplyAdd(doc, path, k, t[k]);
      var cur' := cur[k := t[k]];
      AtSet(doc, path, Obj(cur'), Obj(cur' + Fresh(o, t, rest)));
      ApplyNewKeys(Set(doc, path, Obj(cur')), path, cur', o, t, rest);
    }
  }

  lemma ApplyNone(doc: Json)
    ensures ApplyAll(doc, []) == Ok(doc)
  {
  }

  lemma NewKeysStep(cur: map<string, Json>, o: map<string, Json>, t: map<string, Json>, p: string, ks: seq<string>)
    requires forall k :: k in ks ==> k in t
    requires forall i, j :: 0 <= i < j < |ks| ==> ks[i] != ks[j]
    ensures ks == [] ==> NewKeys(o, t, p, ks) == [] && cur + Fresh(o, t, ks) == cur
    ensures ks != [] && ks[0] in o ==>
      NewKeys(o, t, p, ks) == NewKeys(o, t, p, ks[1..]) && Fresh(o, t, ks) == Fresh(o, t, ks[1..])
    ensures ks != [] && ks[0] !in o ==>
      && NewKeys(o, t, p, ks) == [AddOp(p + "/" + Escape(ks[0]), t[ks[0]])] + NewKeys(o, t, p, ks[1..])
      && cur + Fresh(o, t, ks) == cur[ks[0] := t[ks[0]]] + Fresh(o, t, ks[1..])
  {
    hide Escape, NewKeys, Fresh;
    NewKeysIs(o, t, p, ks);
    FreshStep(cur, o, t, ks);
  }

  lemma NewKeysIs(o: map<string, Json>, t: map<string, Json>, p: string, ks: seq<string>)
    requires forall k :: k in ks ==> k in t
    ensures NewKeys(o, t, p, ks) == if ks == [] then [] else if ks[0] in o then NewKeys(o, t, p, ks[1..])
      else [AddOp(p + "/" + Escape(ks[0]), t[ks[0]])] + NewKeys(o, t, p, ks[1..])
  {
    hide Escape, AddOp;
    assert ks != [] ==> [] + NewKeys(o, t, p, ks[1..]) == NewKeys(o, t, p, ks[1..]);
  }

  lemma AddFirst(a: map<string, Json>, b: map<string, Json>, k: string, v: Json)
    requires k !in b
    ensures a + b[k := v] == a[k := v] + b
  {
  }

  lemma FreshStep(cur: map<string, Json>, o: map<string, Json>, t: map<string, Json>, ks: seq<string>)
    requires forall k :: k in ks ==> k in t
    requires forall i, j :: 0 <= i < j < |ks| ==> ks[i] != ks[j]
    ensures ks == [] ==> cur + Fresh(o, t, ks) == cur
    ensures ks != [] && ks[0] in o ==> Fresh(o, t, ks) == Fresh(o, t, ks[1..])
    ensures ks != [] && ks[0] !in o ==> cur + Fresh(o, t, ks) == cur[ks[0] := t[ks[0]]] + Fresh(o, t, ks[1..])
  {
    if ks == [] {
      assert Fresh(o, t, ks) == map[];
    } else {
      var k0, rest := ks[0], ks[1..];
      InCons(ks);
      if k0 in o {
        assert Fresh(o, t, ks).Keys == Fresh(o, t, rest).Keys;
      } else {
        assert k0 !in rest;
        assert Fresh(o, t, ks) == Fresh(o, t, rest)[k0 := t[k0]];
        hide Fresh;
        AddFirst(cur, Fresh(o, t, rest), k0, t[k0]);
      }
    }
  }

  lemma InCons(ks: seq<string>)
    requires ks != []
    ensures forall k :: k in ks <==> k == ks[0] || k in ks[1..]
  {
    assert ks == [ks[0]] + ks[1..];
  }

  /** Applying the diff of two values at a path of any document that holds the first one there. */
  lemma {:induction false} ApplyDiff(doc: Json, path: seq<string>, s: Json, t: Json)
    requires At(doc, path) == Ok(s) && ArraysBelow(s, TWO64)
    ensures IndicesFit(s, t) ==> ApplyAll(doc, Diff(s, t, ToString(path))) == Ok(Set(doc, path, Patched(s, t)))
    ensures !IndicesFit(s, t) ==> ApplyAll(doc, Diff(s, t, ToString(path))).Err?
    decreases s, 1, 0
  {
    hide Apply, ToString, At, Set, Escape, ArraysBelow;
    if Equal(s, t) {
      AtSet(doc, path, s, s);
    } else if s.Arr? && t.Arr? {
      ApplyDiffArray(doc, path, s, t);
    } else if s.Obj? && t.Obj? {
      ApplyDiffObject(doc, path, s, t);
    } else {
      ApplyReplace(doc, path, t);
      ApplyOne(doc, ReplaceOp(ToString(path), t));
    }
  }

  lemma {:induction false} ApplyDiffArray(doc: Json, path: seq<string>, s: Json, t: Json)
    requires At(doc, path) == Ok(s) && ArraysBelow(s, TWO64) && s.Arr? && t.Arr? && !Equal(s, t)
    ensures IndicesFit(s, t) ==> ApplyAll(doc, Diff(s, t, ToString(path))) == Ok(Set(doc, path, Patched(s, t)))
    ensures !IndicesFit(s, t) ==> ApplyAll(doc, Diff(s, t, ToString(path))).Err?
    decreases s, 0, |s.a| + 1
  {
    hide Apply, ToString, At, Set, Escape, Diff, DiffItems, Removals, Additions;
    var a, b, p := s.a, t.a, ToString(path);
    var n := Min(|a|, |b|);
    var items, minus, plus := DiffItems(s, t, p, n), Removals(p, |b|, |a|), Additions(p, b, |a|);
    DiffArrayIs(s, t, p);
    ApplyConcat(doc, items + minus, plus);
    ApplyConcat(doc, items, minus);
    ApplyItems(doc, path, s, t, n);
    if PrefixFits(a, b, n) {
      var x := Prefix(a, b, n);
      var d := Set(doc, path, Arr(x));
      AtSet(doc, path, Arr(x), Arr(x[..n]));
      AtSet(doc, path, Arr(x), Patched(s, t));
      ArrayTail(d, path, x, b, p);
      ArrayPatched(s, t);
    }
  }

  lemma DiffArrayIs(s: Json, t: Json, p: string)
    requires s.Arr? && t.Arr? && !Equal(s, t)
    ensures Diff(s, t, p)
      == DiffItems(s, t, p, Min(|s.a|, |t.a|)) + Removals(p, |t.a|, |s.a|) + Additions(p, t.a, |s.a|)
  {
  }

  /** The second half of an array diff: cutting the array down or extending it. */
  lemma ArrayTail(doc: Json, path: seq<string>, x: seq<Json>, b: seq<Json>, p: string)
    requires At(doc, path) == Ok(Arr(x)) && |x| < TWO64 && p == ToString(path)
    ensures |b| <= |x| ==> ApplyAll(doc, Removals(p, |b|, |x|)) == Ok(Set(doc, path, Arr(x[..|b|])))
    ensures |b| <= |x| ==> forall d :: ApplyAll(d, Additions(p, b, |x|)) == Ok(d)
    ensures |b| > |x| ==> ApplyAll(doc, Removals(p, |b|, |x|)) == Ok(doc)
    ensures |b| > |x| && AddedFit(|x|, |b|) ==>
      ApplyAll(doc, Additions(p, b, |x|)) == Ok(Set(doc, path, Arr(Extended(x, b))))
    ensures !AddedFit(|x|, |b|) ==> ApplyAll(doc, Additions(p, b, |x|)).Err?
  {
    hide Apply, ToString, At, Set, IndexFits, Extended;
    if |b| <= |x| {
      ApplyRemovals(doc, path, x, |b|);
    } else {
      ApplyAdditions(doc, path, x, b);
    }
  }

  lemma ArrayPatched(s: Json, t: Json)
    requires s.Arr? && t.Arr? && !Equal(s, t)
    ensures var a, b := s.a, t.a;
      var x := Prefix(a, b, Min(|a|, |b|));
      && (|b| <= |a| ==> Patched(s, t) == Arr(x[..|b|]))
      && (|b| > |a| ==> Patched(s, t) == Arr(Extended(x, b)))
      && (IndicesFit(s, t) <==> PrefixFits(a, b, Min(|a|, |b|)) && AddedFit(|a|, |b|))
  {
    hide Extended, IndexFits;
    if |t.a| > |s.a| {
      assert Prefix(s.a, t.a, |s.a|) == seq(|s.a|, i requires 0 <= i < |s.a| => Patched(s.a[i], t.a[i]));
    }
  }

  /** Item i of the array x, put at a path, is at the path one step longer. */
  lemma ItemPath(doc: Json, path: seq<string>, x: seq<Json>, i: nat, v: Json)
    requires At(doc, path).Ok? && i < |x| <= TWO64
    ensures var d, p := Set(doc, path, Arr(x)), path + [Digits(i)];
      At(d, p) == Ok(x[i]) && Set(d, p, v) == Set(doc, path, Arr(x[i := v]))
    ensures ToString(path + [Digits(i)]) == ToString(path) + "/" + Digits(i)
  {
    hide ToString, At, Set, Escape, Digits, Index;
    AtSet(doc, path, Arr(x), Arr(x[i := v]));
    IndexDigits(i, |x|);
    AtStep(Set(doc, path, Arr(x)), path, Digits(i), v);
    PathStep(path, Digits(i));
    EscapeDigits(Digits(i));
  }

  /** The common elements, one after the other. */
  lemma {:induction false} ApplyItems(doc: Json, path: seq<string>, s: Json, t: Json, n: nat)
    requires At(doc, path) == Ok(s) && ArraysBelow(s, TWO64) && s.Arr? && t.Arr? && n <= |s.a| && n <= |t.a|
    ensures PrefixFits(s.a, t.a, n) ==>
      ApplyAll(doc, DiffItems(s, t, ToString(path), n)) == Ok(Set(doc, path, Arr(Prefix(s.a, t.a, n))))
    ensures !PrefixFits(s.a, t.a, n) ==> ApplyAll(doc, DiffItems(s, t, ToString(path), n)).Err?
    decreases s, 0, n
  {
    hide Apply, ToString, At, Set, Escape, Diff, Digits, Index, IndicesFit, Patched;
    var a, b, p := s.a, t.a, ToString(path);
    if n == 0 {
      assert Prefix(a, b, 0) == a;
      AtSet(doc, path, s, s);
    } else {
      var i := n - 1;
      var more := Diff(a[i], b[i], p + "/" + Digits(i));
      ApplyItems(doc, path, s, t, i);
      ApplyConcat(doc, DiffItems(s, t, p, i), more);
      if PrefixFits(a, b, i) {
        var x, tok := Prefix(a, b, i), Digits(i);
        var d := Set(doc, path, Arr(x));
        ItemPath(doc, path, x, i, Patched(a[i], b[i]));
        ApplyDiff(d, path + [tok], a[i], b[i]);
        assert x[i := Patched(a[i], b[i])] == Prefix(a, b, n);
      }
    }
  }

  lemma {:induction false} ApplyDiffObject(doc: Json, path: seq<string>, s: Json, t: Json)
    requires At(doc, path) == Ok(s) && ArraysBelow(s, TWO64) && s.Obj? && t.Obj? && !Equal(s, t)
    ensures IndicesFit(s, t) ==> ApplyAll(doc, Diff(s, t, ToString(path))) == Ok(Set(doc, path, Patched(s, t)))
    ensures !IndicesFit(s, t) ==> ApplyAll(doc, Diff(s, t, ToString(path))).Err?
    decreases s, 0, |SortedKeys(s.o.Keys)| + 1
  {
    hide Apply, ToString, At, Set, Escape, Diff, DiffKeys, NewKeys, SortedKeys;
    var o, p, ks, news := s.o, ToString(path), SortedKeys(s.o.Keys), SortedKeys(t.o.Keys);
    DiffObjectIs(s, t, p);
    ApplyConcat(doc, DiffKeys(s, t, p, ks), NewKeys(o, t.o, p, news));
    ApplyKeys(doc, path, s, t, o, ks);
    ObjectPatched(s, t);
    if KeysFit(o, t.o, ks) {
      var cur := Compared(o, o, t.o, ks);
      AtSet(doc, path, Obj(cur), Patched(s, t));
      ApplyNewKeys(Set(doc, path, Obj(cur)), path, cur, o, t.o, news);
    }
  }

  lemma DiffObjectIs(s: Json, t: Json, p: string)
    requires s.Obj? && t.Obj? && !Equal(s, t)
    ensures Diff(s, t, p) == DiffKeys(s, t, p, SortedKeys(s.o.Keys)) + NewKeys(s.o, t.o, p, SortedKeys(t.o.Keys))
  {
    hide SortedKeys, DiffKeys, NewKeys, Equal;
  }

  lemma ObjectPatched(s: Json, t: Json)
    requires s.Obj? && t.Obj? && !Equal(s, t)
    ensures var o, ks, news := s.o, SortedKeys(s.o.Keys), SortedKeys(t.o.Keys);
      && Patched(s, t) == Obj(Compared(o, o, t.o, ks) + Fresh(o, t.o, news))
      && (IndicesFit(s, t) <==> KeysFit(o, t.o, ks))
  {
    hide SortedKeys, Equal;
    var o, ks, news := s.o, SortedKeys(s.o.Keys), SortedKeys(t.o.Keys);
    assert Patched(s, t).o == Compared(o, o, t.o, ks) + Fresh(o, t.o, news);
  }

  /** The source's keys, one after the other. */
  lemma {:induction false} ApplyKeys(doc: Json, path: seq<string>, s: Json, t: Json, cur: map<string, Json>,
                                     ks: seq<string>)
    requires At(doc, path) == Ok(Obj(cur)) && ArraysBelow(s, TWO64) && s.Obj? && t.Obj?
    requires forall k :: k in ks ==> k in s.o && k in cur && cur[k] == s.o[k]
    requires forall i, j :: 0 <= i < j < |ks| ==> ks[i] != ks[j]
    ensures KeysFit(s.o, t.o, ks) ==>
      ApplyAll(doc, DiffKeys(s, t, ToString(path), ks)) == Ok(Set(doc, path, Obj(Compared(cur, s.o, t.o, ks))))
    ensures !KeysFit(s.o, t.o, ks) ==> ApplyAll(doc, DiffKeys(s, t, ToString(path), ks)).Err?
    decreases s, 0, |ks|
  {
    hide Apply, ApplyAll, ToString, At, Set, Escape, Diff, DiffKeys, IndicesFit, Patched, KeysFit, Compared;
    var o, p := s.o, ToString(path);
    KeysFitStep(o, t.o, ks);
    DiffKeysIs(s, t, p, ks);
    ComparedStep(cur, o, t.o, ks);
    if ks == [] {
      ApplyNone(doc);
      AtSet(doc, path, Obj(cur), Obj(cur));
    } else {
      var k, rest := ks[0], ks[1..];
      var first := if k in t.o then Diff(o[k], t.o[k], p + "/" + Escape(k)) else [RemoveOp(p + "/" + Escape(k))];
      ApplyConcat(doc, first, DiffKeys(s, t, p, rest));
      ApplyKey(doc, path, s, t, cur, k);
      if k !in t.o || IndicesFit(o[k], t.o[k]) {
        var cur' := if k in t.o then cur[k := Patched(o[k], t.o[k])] else cur - {k};
        AtSet(doc, path, Obj(cur'), Obj(Compared(cur', o, t.o, rest)));
        ApplyKeys(Set(doc, path, Obj(cur')), path, s, t, cur', rest);
      }
    }
  }

  lemma DiffKeysIs(s: Json, t: Json, p: string, ks: seq<string>)
    requires s.Obj? && t.Obj? && forall k :: k in ks ==> k in s.o
    ensures DiffKeys(s, t, p, ks) == if ks == [] then [] else
      (if ks[0] in t.o then Diff(s.o[ks[0]], t.o[ks[0]], p + "/" + Escape(ks[0]))
       else [RemoveOp(p + "/" + Escape(ks[0]))])
      + DiffKeys(s, t, p, ks[1..])
  {
    hide Diff, Escape;
  }

  lemma ComparedStep(cur: map<string, Json>, s: map<string, Json>, t: map<string, Json>, ks: seq<string>)
    requires forall k :: k in ks ==> k in s && k in cur
    requires forall i, j :: 0 <= i < j < |ks| ==> ks[i] != ks[j]
    ensures ks == [] ==> Compared(cur, s, t, ks) == cur
    ensures ks != [] ==>
      var next := if ks[0] in t then cur[ks[0] := Patched(s[ks[0]], t[ks[0]])] else cur - {ks[0]};
      Compared(cur, s, t, ks) == Compared(next, s, t, ks[1..])
    ensures ks != [] ==> ks[0] !in ks[1..]
  {
    hide Patched;
    if ks != [] {
      InCons(ks);
      assert ks[0] !in ks[1..];
    }
  }

  lemma KeysFitStep(s: map<string, Json>, t: map<string, Json>, ks: seq<string>)
    requires forall k :: k in ks ==> k in s
    ensures ks == [] ==> KeysFit(s, t, ks)
    ensures ks != [] ==>
      (KeysFit(s, t, ks) <==> (ks[0] in t ==> IndicesFit(s[ks[0]], t[ks[0]])) && KeysFit(s, t, ks[1..]))
  {
    hide IndicesFit;
    if ks != [] { InCons(ks); }
  }

  /** One key of the source. */
  lemma {:induction false} ApplyKey(doc: Json, path: seq<string>, s: Json, t: Json, cur: map<string, Json>, k: string)
    requires At(doc, path) == Ok(Obj(cur)) && ArraysBelow(s, TWO64) && s.Obj? && t.Obj?
    requires k in s.o && k in cur && cur[k] == s.o[k]
    ensures k !in t.o ==>
      ApplyAll(doc, [RemoveOp(ToString(path) + "/" + Escape(k))]) == Ok(Set(doc, path, Obj(cur - {k})))
    ensures k in t.o && IndicesFit(s.o[k], t.o[k]) ==>
      ApplyAll(doc, Diff(s.o[k], t.o[k], ToString(path) + "/" + Escape(k)))
        == Ok(Set(doc, path, Obj(cur[k := Patched(s.o[k], t.o[k])])))
    ensures k in t.o && !IndicesFit(s.o[k], t.o[k]) ==>
      ApplyAll(doc, Diff(s.o[k], t.o[k], ToString(path) + "/" + Escape(k))).Err?
    decreases s, 0, 0
  {
    hide Apply, ToString, At, Set, Escape, Diff, IndicesFit, Patched;
    if k in t.o {
      AtStep(doc, path, k, Patched(s.o[k], t.o[k]));
      PathStep(path, k);
      ApplyDiff(doc, path + [k], s.o[k], t.o[k]);
    } else {
      ApplyRemove(doc, path, k);
      ApplyOne(doc, RemoveOp(ToString(path) + "/" + Escape(k)));
    }
  }

  /**
   Patching the source with diff(source, target) goes through if and only if the index of every
   element that has to be added fits, and this is what it makes of the source.
   */
  lemma PatchOfDiffExact(source: Json, target: Json)
    requires ArraysBelow(source, TWO64)
    ensures var r := Patch(source, Arr(Diff(source, target, "")));
      if IndicesFit(source, target) then r == Ok(Patched(source, target)) else r.Err?
  {
    hide IndicesFit, Patched, Diff, ArraysBelow;
    assert ToString([]) == "";
    ApplyDiff(source, [], source, target);
  }

  /**
   The documented law: patching the source with diff(source, target) gives a value equal to
   the target, whenever no array has to grow beyond 2^31 elements.
   */
  lemma PatchOfDiff(source: Json, target: Json)
    requires Fits(source) && GrowthFits(source, target)
    ensures var r := Patch(source, Arr(Diff(source, target, "")));
      && r == Ok(Merge(source, target)) && Equal(r.value, target)
      && (Fits(target) ==> Canon(r.value) == Canon(target))
  {
    hide GrowthFits, IndicesFit, Patched, Merge, Diff, Patch, Equal, Canon, Fits;
    FitsBelow(source);
    PatchOfDiffExact(source, target);
    GrowthPatched(source, target);
    MergeEqual(source, target);
    if Fits(target) {
      MergeCanon(source, target);
    }
  }

  /** And only then, as long as the source's arrays have fewer than 2^32 elements: otherwise the patch throws. */
  lemma PatchOfDiffOnlyIf(source: Json, target: Json)
    requires ArraysBelow(source, TWO32)
    ensures var r := Patch(source, Arr(Diff(source, target, "")));
      && (r.Ok? <==> GrowthFits(source, target))
      && (r.Ok? && Equal(r.value, target) <==> GrowthFits(source, target))
      && (Fits(source) && Fits(target) ==>
          (r.Ok? && Canon(r.value) == Canon(target) <==> GrowthFits(source, target)))
  {
    hide GrowthFits, IndicesFit, Patched, Merge, Diff, Patch, ArraysBelow, Equal, Canon, Fits;
    BelowMore(source);
    PatchOfDiffExact(source, target);
    if GrowthFits(source, target) {
      GrowthPatched(source, target);
      MergeEqual(source, target);
      if Fits(source) && Fits(target) {
        MergeCanon(source, target);
      }
    } else {
      GrowthNeeded(source, target);
    }
  }

  /** Where growth fits, every place is at the end. */
  lemma {:induction false} GrowthPatched(s: Json, t: Json)
    requires GrowthFits(s, t)
    ensures IndicesFit(s, t) && Patched(s, t) == Merge(s, t)
    decreases s
  {
    if !Equal(s, t) {
      match (s, t)
      case (Arr(a), Arr(b)) =>
        forall i | 0 <= i < |a| && i < |b|
          ensures IndicesFit(a[i], b[i]) && Patched(a[i], b[i]) == Merge(a[i], b[i])
        {
          GrowthPatched(a[i], b[i]);
        }
        assert Patched(s, t).a == Merge(s, t).a;
      case (Obj(a), Obj(b)) =>
        forall k | k in a && k in b
          ensures IndicesFit(a[k], b[k]) && Patched(a[k], b[k]) == Merge(a[k], b[k])
        {
          GrowthPatched(a[k], b[k]);
        }
        assert Patched(s, t).o == Merge(s, t).o;
      case _ =>
    }
  }

  /** From arrays of fewer than 2^32 elements, growth beyond 2^31 meets an index that does not fit. */
  lemma {:induction false} GrowthNeeded(s: Json, t: Json)
    requires ArraysBelow(s, TWO32) && !GrowthFits(s, t)
    ensures !IndicesFit(s, t)
    decreases s
  {
    match (s, t)
    case (Arr(a), Arr(b)) =>
      if |a| < |b| && |b| > TWO31 {
        assert !IndexFits(if |a| < TWO31 then TWO31 else |a|);
      } else {
        var i :| 0 <= i < |a| && i < |b| && !GrowthFits(a[i], b[i]);
        GrowthNeeded(a[i], b[i]);
      }
    case (Obj(a), Obj(b)) =>
      var k :| k in a && k in b && !GrowthFits(a[k], b[k]);
      GrowthNeeded(a[k], b[k]);
    case _ =>
  }

  /** An input for which the law fails: extending the empty array to 2^31 + 1 nulls. */
  lemma PatchOfDiffFails()
    ensures exists source, target :: Fits(source) && Fits(target) && Patch(source, Arr(Diff(source, target, ""))).Err?
  {
    var source, target := Arr([]), Arr(seq(TWO31 + 1, i => Null));
    assert !GrowthFits(source, target);
    PatchOfDiffOnlyIf(source, target);
    assert Fits(source) && Fits(target);
  }

  /** Beyond 2^32 it may also go through and put an element in the wrong place: here, in front of 2^32 nulls. */
  lemma PatchOfDiffMisplaces() returns (source: Json, target: Json)
    ensures Fits(source) && Fits(target)
    ensures var r := Patch(source, Arr(Diff(source, target, ""))); r.Ok? && !Equal(r.value, target)
  {
    var a := seq(TWO32, i => Null);
    source, target := Arr(a), Arr(a + [Bool(true)]);
    assert forall i :: 0 <= i < |a| ==> a[i] == Null;
    hide IndicesFit, Patched, Diff, Patch, Fits, ArraysBelow, Equal;
    OneMoreFits(a, Bool(true));
    FitsBelow(source);
    PatchOfDiffExact(source, target);
    OneMoreInFront(a, Bool(true));
    FirstDiffers(a);
  }

  lemma OneMoreFits(a: seq<Json>, v: Json)
    requires |a| == TWO32 && (forall i :: 0 <= i < |a| ==> a[i] == Null) && v.Bool?
    ensures Fits(Arr(a)) && Fits(Arr(a + [v]))
  {
  }

  lemma FirstDiffers(a: seq<Json>)
    requires a != [] && a[0] == Null
    ensures !Equal(Arr([Bool(true)] + a), Arr(a + [Bool(true)]))
  {
    var x, y := [Bool(true)] + a, a + [Bool(true)];
    assert !Equal(x[0], y[0]);
  }

  /** One more element behind 2^32 nulls goes in front of them. */
  lemma OneMoreInFront(a: seq<Json>, v: Json)
    requires |a| == TWO32 && forall i :: 0 <= i < |a| ==> a[i] == Null
    ensures IndicesFit(Arr(a), Arr(a + [v])) && Patched(Arr(a), Arr(a + [v])) == Arr([v] + a)
  {
    var b, x := a + [v], seq(|a|, i requires 0 <= i < |a| => Patched(a[i], (a + [v])[i]));
    assert AddedFit(|a|, |b|);
    assert x == a;
    assert b[|a|..] == [v];
  }

  lemma {:induction false} FitsBelow(j: Json)
    requires Fits(j)
    ensures ArraysBelow(j, TWO64)
    decreases j
  {
    match j
    case Arr(a) => forall i | 0 <= i < |a| ensures ArraysBelow(a[i], TWO64) { FitsBelow(a[i]); }
    case Obj(o) => forall k | k in o ensures ArraysBelow(o[k], TWO64) { FitsBelow(o[k]); }
    case _ =>
  }

  lemma {:induction false} BelowMore(j: Json)
    requires ArraysBelow(j, TWO32)
    ensures ArraysBelow(j, TWO64)
    decreases j
  {
    match j
    case Arr(a) => forall i | 0 <= i < |a| ensures ArraysBelow(a[i], TWO64) { BelowMore(a[i]); }
    case Obj(o) => forall k | k in o ensures ArraysBelow(o[k], TWO64) { BelowMore(o[k]); }
    case _ =>
  }
}
