/** The cachelink catalogue: a list of records, the nested dictionary built from it, and the walk that
    reads the list back. */
module Catalogue {
  import opened Wrappers
  import opened Text

  type Path = seq<string>

  /** A value of the nested document. */
  datatype Value = Scalar(text: string) | Null | Dict(items: map<string, Value>)

  datatype Record = Record(backendPath: string, canonicalId: string, url: string, subfolder: string,
                           mode: string, handler: Option<string>)

  // ---- Small string helpers ----

  function NonEmpty(fields: seq<string>): Path {
    if fields == [] then []
    else (if fields[0] != "" then [fields[0]] else []) + NonEmpty(fields[1..])
  }

  /** `[seg for seg in text.strip("/").split("/") if seg]` */
  function Segments(text: string): Path {
    NonEmpty(Split('/', text))
  }

  function Or(text: string, default: string): string {
    if text != "" then text else default
  }

  predicate EndsWithZip(s: string) {
    |s| >= 4 && s[|s| - 4..] == ".zip"
  }

  function DetectMode(subfolder: string): string {
    var parts := Segments(Strip(subfolder));
    if exists i :: 0 <= i < |parts| - 1 && EndsWithZip(parts[i]) then "zip" else "plain"
  }

  // ---- List to tree ----

  function LeafName(r: Record): string {
    var fields := Split('/', r.canonicalId);
    fields[|fields| - 1]
  }

  function PathOf(r: Record): Path {
    Segments(r.backendPath) + [LeafName(r)]
  }

  function LeafOf(r: Record): Value {
    var subfolder := Or(r.subfolder, "/");
    Dict(map["url" := Scalar(r.url),
             "subfolder" := Scalar(subfolder),
             "mode" := Scalar(Or(r.mode, DetectMode(subfolder))),
             "url_handler" := if r.handler.Some? then Scalar(r.handler.value) else Null])
  }

  /** The dictionary to descend into; anything else in its place is thrown away. */
  function Folder(m: map<string, Value>, k: string): map<string, Value> {
    if k in m && m[k].Dict? then m[k].items else map[]
  }

  /** Down the path, creating a dictionary wherever there is none, and the value at its end. */
  function Insert(m: map<string, Value>, p: Path, v: Value): map<string, Value>
    requires p != []
    decreases |p|
  {
    m[p[0] := if |p| == 1 then v else Dict(Insert(Folder(m, p[0]), p[1..], v))]
  }

  function Step(m: map<string, Value>, r: Record): map<string, Value> {
    if LeafName(r) == "" then m else Insert(m, PathOf(r), LeafOf(r))
  }

  function BuildFrom(m: map<string, Value>, rs: seq<Record>): map<string, Value>
    decreases |rs|
  {
    if rs == [] then m else BuildFrom(Step(m, rs[0]), rs[1..])
  }

  /** `_build_cachelinks_tree` and `_cachelinks_to_tree` */
  method Build(rs: seq<Record>) returns (tree: map<string, Value>)
    ensures tree == BuildFrom(map[], rs)
  {
    tree := map[];
    for i := 0 to |rs|
      invariant BuildFrom(tree, rs[i..]) == BuildFrom(map[], rs)
    {
      assert rs[i..][0] == rs[i] && rs[i..][1..] == rs[i + 1..];
      if LeafName(rs[i]) != "" {
        tree := Insert(tree, PathOf(rs[i]), LeafOf(rs[i]));
      }
    }
  }

  // ---- Tree to list ----

  /** A dictionary whose "url" is neither missing nor blank; the stricter walk also wants "subfolder". */
  predicate IsLeaf(strict: bool, v: Value) {
    && v.Dict? && "url" in v.items
    && (match v.items["url"]
        case Scalar(text) => !Blank(text)
        case Null => false
        case Dict(items) => items != map[])
    && (strict ==> "subfolder" in v.items)
  }

  /** The leaf tests in full: a dictionary whose "url" is a text that is not blank, or another dictionary that
      is not empty; the strict one asks for a "subfolder" too. */
  lemma IsLeafMeans(v: Value)
    ensures IsLeaf(true, v) <==> IsLeaf(false, v) && "subfolder" in v.items
    ensures IsLeaf(false, v) <==>
              v.Dict? && "url" in v.items
              && v.items["url"] != Null && v.items["url"] != Dict(map[])
              && (v.items["url"].Scalar? ==> exists c :: c in v.items["url"].text && !IsSpace(c))
  {
  }

  /** The leaf a walk of `m` finds at `p`. A walk never looks inside a leaf. */
  function LeafAt(strict: bool, m: map<string, Value>, p: Path): Option<Value>
    decreases |p|
  {
    if p == [] || p[0] !in m || !m[p[0]].Dict? then None
    else if IsLeaf(strict, m[p[0]]) then (if |p| == 1 then Some(m[p[0]]) else None)
    else LeafAt(strict, m[p[0]].items, p[1..])
  }

  /** What walking the entries `done` of `m` below `prefix` writes at `q`. */
  function Hit(strict: bool, m: map<string, Value>, prefix: Path, done: set<string>, q: Path): Option<Value> {
    if prefix < q && q[|prefix|] in done then LeafAt(strict, m, q[|prefix|..]) else None
  }

  ghost predicate Writes(before: map<Path, Value>, after: map<Path, Value>, strict: bool,
                         m: map<string, Value>, prefix: Path, done: set<string>)
  {
    forall q {:trigger q in after} {:trigger Hit(strict, m, prefix, done, q)} ::
      var hit := Hit(strict, m, prefix, done, q);
      && (q in after <==> q in before || hit.Some?)
      && (q in after ==> after[q] == if hit.Some? then hit.value else before[q])
  }

  lemma HitBelow(strict: bool, m: map<string, Value>, prefix: Path, k: string, q: Path)
    requires k in m && m[k].Dict?
    ensures IsLeaf(strict, m[k]) ==>
              Hit(strict, m, prefix, {k}, q) == if q == prefix + [k] then Some(m[k]) else None
    ensures !IsLeaf(strict, m[k]) ==>
              Hit(strict, m, prefix, {k}, q) == Hit(strict, m[k].items, prefix + [k], m[k].items.Keys, q)
  {
    var here := prefix + [k];
    if prefix < q && q[|prefix|] == k {
      var rest := q[|prefix|..];
      assert rest[0] == k && rest[1..] == q[|here|..];
      assert q[..|here|] == here;
      assert |rest| == 1 <==> q == here;
      assert !IsLeaf(strict, m[k]) ==> LeafAt(strict, m, rest) == LeafAt(strict, m[k].items, q[|here|..]);
      if |rest| > 1 {
        assert here < q && q[|here|..][0] == q[|here|];
      } else {
        assert q[|here|..] == [];
      }
    }
  }

  lemma HitMore(strict: bool, m: map<string, Value>, prefix: Path, done: set<string>, k: string, q: Path)
    requires k !in done
    ensures var old', new' := Hit(strict, m, prefix, done, q), Hit(strict, m, prefix, {k}, q);
            && (old'.None? || new'.None?)
            && Hit(strict, m, prefix, done + {k}, q) == if new'.Some? then new' else old'
  {
  }

  lemma WalkStep(start: map<Path, Value>, before: map<Path, Value>, after: map<Path, Value>, strict: bool,
                 m: map<string, Value>, prefix: Path, done: set<string>, k: string)
    requires k in m && k !in done && Writes(start, before, strict, m, prefix, done)
    requires !m[k].Dict? ==> after == before
    requires m[k].Dict? && IsLeaf(strict, m[k]) ==> after == before[prefix + [k] := m[k]]
    requires m[k].Dict? && !IsLeaf(strict, m[k]) ==>
               Writes(before, after, strict, m[k].items, prefix + [k], m[k].items.Keys)
    ensures Writes(start, after, strict, m, prefix, done + {k})
  {
    forall q
      ensures var hit := Hit(strict, m, prefix, done + {k}, q);
              && (q in after <==> q in start || hit.Some?)
              && (q in after ==> after[q] == if hit.Some? then hit.value else start[q])
    {
      HitMore(strict, m, prefix, done, k, q);
      if m[k].Dict? {
        HitBelow(strict, m, prefix, k, q);
      }
    }
  }

  /** Started on an empty table, a walk collects exactly the leaves of the tree. */
  lemma WalkFindsLeaves(strict: bool, m: map<string, Value>, found: map<Path, Value>)
    requires Writes(map[], found, strict, m, [], m.Keys)
    ensures forall p :: (p in found <==> LeafAt(strict, m, p).Some?)
                        && (p in found ==> found[p] == LeafAt(strict, m, p).value)
  {
  }

  // ---- The walk's output is prefix-free, whatever the tree ----

  lemma {:induction false} LeavesApart(strict: bool, m: map<string, Value>, p: Path, q: Path)
    requires LeafAt(strict, m, p).Some? && LeafAt(strict, m, q).Some? && p <= q
    ensures p == q
    decreases |p|
  {
    assert p[0] == q[0];
    if !IsLeaf(strict, m[p[0]]) {
      LeavesApart(strict, m[p[0]].items, p[1..], q[1..]);
      assert p == [p[0]] + p[1..] && q == [q[0]] + q[1..];
    }
  }

  // ---- Insertion ----

  predicate Apart(p: Path, q: Path) {
    !(p <= q) && !(q <= p)
  }

  lemma ApartTails(p: Path, q: Path)
    requires p != [] && q != [] && p[0] == q[0]
    ensures Apart(p, q) <==> Apart(p[1..], q[1..])
    ensures p == q <==> p[1..] == q[1..]
  {
  }

  /** Insertions at incomparable paths commute on every tree. */
  lemma {:induction false} InsertCommutes(m: map<string, Value>, p: Path, v: Value, q: Path, w: Value)
    requires p != [] && q != [] && Apart(p, q)
    ensures Insert(Insert(m, p, v), q, w) == Insert(Insert(m, q, w), p, v)
    decreases |p|
  {
    if p[0] == q[0] {
      ApartTails(p, q);
      assert |p| > 1 && |q| > 1;
      var below := Folder(m, p[0]);
      InsertCommutes(below, p[1..], v, q[1..], w);
      InsertTwice(m, p, v, q, w);
      InsertTwice(m, q, w, p, v);
    } else {
      assert Folder(Insert(m, p, v), q[0]) == Folder(m, q[0]);
      assert Folder(Insert(m, q, w), p[0]) == Folder(m, p[0]);
      var x, y := Insert(m, p, v)[p[0]], Insert(m, q, w)[q[0]];
      assert m[p[0] := x][q[0] := y] == m[q[0] := y][p[0] := x];
    }
  }

  lemma InsertTwice(m: map<string, Value>, p: Path, v: Value, q: Path, w: Value)
    requires |p| > 1 && |q| > 1 && p[0] == q[0]
    ensures Insert(Insert(m, p, v), q, w) ==
              m[p[0] := Dict(Insert(Insert(Folder(m, p[0]), p[1..], v), q[1..], w))]
  {
  }

  // ---- The shape of a built tree ----

  function NodeAt(m: map<string, Value>, p: Path): Option<Value>
    decreases |p|
  {
    if p == [] || p[0] !in m then None
    else if |p| == 1 then Some(m[p[0]])
    else if m[p[0]].Dict? then NodeAt(m[p[0]].items, p[1..])
    else None
  }

  predicate DictAt(m: map<string, Value>, p: Path) {
    NodeAt(m, p).Some? && NodeAt(m, p).value.Dict?
  }

  /** What stands at `q` after an insertion at `p`: the value, a folder on the way to it, what the value
      holds, or what stood there before. */
  lemma {:induction false} NodeAfterInsert(m: map<string, Value>, p: Path, v: Value, q: Path)
    requires p != [] && q != [] && v.Dict?
    ensures q == p ==> NodeAt(Insert(m, p, v), q) == Some(v)
    ensures q < p ==> DictAt(Insert(m, p, v), q)
    ensures p < q ==> NodeAt(Insert(m, p, v), q) == NodeAt(v.items, q[|p|..])
    ensures Apart(p, q) ==> NodeAt(Insert(m, p, v), q) == NodeAt(m, q)
    decreases |p|
  {
    if p[0] == q[0] && |p| > 1 && |q| > 1 {
      ApartTails(p, q);
      TailsInOrder(p, q);
      NodeAfterInsert(Folder(m, p[0]), p[1..], v, q[1..]);
    } else if p[0] == q[0] {
      assert |p| == 1 ==> p == [q[0]];
      assert |q| == 1 ==> q == [p[0]];
    }
  }

  lemma TailsInOrder(p: Path, q: Path)
    requires |p| > 1 && |q| > 1 && p[0] == q[0]
    ensures p < q <==> p[1..] < q[1..]
    ensures q < p <==> q[1..] < p[1..]
    ensures p < q ==> q[1..][|p| - 1..] == q[|p|..]
  {
  }

  lemma {:induction false} ChildNode(m: map<string, Value>, q: Path, k: string)
    requires q != []
    ensures NodeAt(m, q + [k]) ==
              if DictAt(m, q) && k in NodeAt(m, q).value.items then Some(NodeAt(m, q).value.items[k]) else None
    decreases |q|
  {
    var deeper := q + [k];
    assert deeper[0] == q[0] && deeper[1..] == q[1..] + [k];
    if |q| > 1 && q[0] in m && m[q[0]].Dict? {
      ChildNode(m[q[0]].items, q[1..], k);
    } else if |q| == 1 && q[0] in m && m[q[0]].Dict? {
      assert deeper[1..] == [k];
    }
  }

  /** Records without a name are skipped. */
  predicate HasName(r: Record) {
    LeafName(r) != ""
  }

  /** A named record stands at `q`. */
  predicate Recorded(rs: seq<Record>, q: Path) {
    exists r :: r in rs && HasName(r) && PathOf(r) == q
  }

  /** Some named record lies at or below `q`. */
  predicate OnTheWay(rs: seq<Record>, q: Path) {
    exists r :: r in rs && HasName(r) && q <= PathOf(r)
  }

  /** No named record comes after one that lies at or below it. */
  ghost predicate ParentsFirst(rs: seq<Record>) {
    forall i, j :: 0 <= i < j < |rs| && HasName(rs[i]) && HasName(rs[j]) ==> !(PathOf(rs[j]) <= PathOf(rs[i]))
  }

  function Field(r: Record, k: string): Option<Value> {
    if k in LeafOf(r).items then Some(LeafOf(r).items[k]) else None
  }

  /** Dictionaries stand exactly on the ways to records; anything else is a field of the record above. */
  ghost predicate ShapeAt(m: map<string, Value>, rs: seq<Record>, q: Path)
    requires q != []
  {
    var above, k := q[..|q| - 1], q[|q| - 1];
    && (DictAt(m, q) <==> OnTheWay(rs, q))
    && (!OnTheWay(rs, q) ==>
          && (forall r :: r in rs && HasName(r) && PathOf(r) == above ==> NodeAt(m, q) == Field(r, k))
          && (NodeAt(m, q).Some? ==> Recorded(rs, above)))
  }

  ghost predicate Shape(m: map<string, Value>, rs: seq<Record>) {
    forall q {:trigger NodeAt(m, q)} :: q != [] ==> ShapeAt(m, rs, q)
  }

  lemma {:induction false} BuildAppend(m: map<string, Value>, rs: seq<Record>, r: Record)
    ensures BuildFrom(m, rs + [r]) == Step(BuildFrom(m, rs), r)
    decreases |rs|
  {
    if rs == [] {
      assert ([] + [r])[1..] == [];
    } else {
      assert (rs + [r])[1..] == rs[1..] + [r];
      BuildAppend(Step(m, rs[0]), rs[1..], r);
    }
  }

  lemma NothingInEmpty()
    ensures Shape(map[], [])
  {
    forall q | q != [] ensures ShapeAt(map[], [], q) {
    }
  }

  /** What the builders make of a list: at every path the record, folder or field that belongs there. */
  lemma {:induction false} BuildShape(rs: seq<Record>)
    requires ParentsFirst(rs)
    ensures Shape(BuildFrom(map[], rs), rs)
  {
    if rs == [] {
      NothingInEmpty();
    } else {
      var n := |rs| - 1;
      var before, r := rs[..n], rs[n];
      assert rs == before + [r];
      BuildShape(before);
      BuildAppend(map[], before, r);
      var m := BuildFrom(map[], before);
      forall q | q != [] ensures ShapeAt(BuildFrom(map[], rs), rs, q) {
        assert ShapeAt(m, before, q) by { var node := NodeAt(m, q); }
        AddShape(m, before, r, q);
      }
    }
  }

  lemma AddShape(m: map<string, Value>, rs: seq<Record>, r: Record, q: Path)
    requires q != [] && ShapeAt(m, rs, q)
    requires HasName(r) ==> forall s :: s in rs && HasName(s) ==> !(PathOf(r) <= PathOf(s))
    ensures ShapeAt(Step(m, r), rs + [r], q)
  {
    assert forall s :: s in rs + [r] <==> s in rs || s == r;
    if HasName(r) {
      var p, v, above := PathOf(r), LeafOf(r), q[..|q| - 1];
      NodeAfterInsert(m, p, v, q);
      hide PathOf, LeafOf, NodeAt, Insert;
      if p < q {
        assert p <= above by { assert p == q[..|p|] == above[..|p|]; }
        FieldsInside(r, q[|p|..]);
        assert |q[|p|..]| == 1 <==> above == p;
      } else {
        assert p != above by { assert above < q; }
      }
    }
  }

  lemma FieldsInside(r: Record, rest: Path)
    requires rest != []
    ensures NodeAt(LeafOf(r).items, rest) == if |rest| == 1 then Field(r, rest[0]) else None
    ensures !DictAt(LeafOf(r).items, rest)
  {
  }

  // ---- Later records overwrite earlier ones ----

  /** A later record stands at the path of this one or above it. */
  predicate Overwritten(r: Record, later: seq<Record>) {
    HasName(r) && exists s :: s in later && HasName(s) && PathOf(s) <= PathOf(r)
  }

  function Survivors(rs: seq<Record>): seq<Record> {
    if rs == [] then []
    else (if Overwritten(rs[0], rs[1..]) then [] else [rs[0]]) + Survivors(rs[1..])
  }

  /** An insertion at or above a path leaves nothing of an earlier insertion at that path. */
  lemma {:induction false} InsertAbsorbs(m: map<string, Value>, p: Path, v: Value, q: Path, w: Value)
    requires q != [] && q <= p
    ensures Insert(Insert(m, p, v), q, w) == Insert(m, q, w)
    decreases |q|
  {
    if |q| > 1 {
      assert q[1..] <= p[1..] by { assert q[1..] == p[..|q|][1..]; }
      InsertAbsorbs(Folder(m, p[0]), p[1..], v, q[1..], w);
      InsertTwice(m, p, v, q, w);
    }
  }

  /** The trees differ at and below `p` at most. */
  predicate AlikeOutside(m: map<string, Value>, m': map<string, Value>, p: Path)
    requires p != []
  {
    Insert(m, p, Null) == Insert(m', p, Null)
  }

  lemma StepKeepsAlike(m: map<string, Value>, m': map<string, Value>, p: Path, r: Record)
    requires p != [] && AlikeOutside(m, m', p)
    ensures HasName(r) && PathOf(r) <= p ==> Step(m, r) == Step(m', r)
    ensures AlikeOutside(Step(m, r), Step(m', r), p)
  {
    hide Insert;
    if HasName(r) {
      var q, w := PathOf(r), LeafOf(r);
      if q <= p {
        InsertAbsorbs(m, p, Null, q, w);
        InsertAbsorbs(m', p, Null, q, w);
      } else if p <= q {
        InsertAbsorbs(m, q, w, p, Null);
        InsertAbsorbs(m', q, w, p, Null);
      } else {
        InsertCommutes(m, q, w, p, Null);
        InsertCommutes(m', q, w, p, Null);
      }
    }
  }

  lemma {:induction false} DifferenceForgotten(m: map<string, Value>, m': map<string, Value>, p: Path,
                                               rs: seq<Record>)
    requires p != [] && AlikeOutside(m, m', p)
    requires exists s :: s in rs && HasName(s) && PathOf(s) <= p
    ensures BuildFrom(m, rs) == BuildFrom(m', rs)
    decreases |rs|
  {
    hide AlikeOutside, PathOf, LeafName;
    StepKeepsAlike(m, m', p, rs[0]);
    if !(HasName(rs[0]) && PathOf(rs[0]) <= p) {
      var s :| s in rs && HasName(s) && PathOf(s) <= p;
      assert s in rs[1..];
      DifferenceForgotten(Step(m, rs[0]), Step(m', rs[0]), p, rs[1..]);
    }
  }

  lemma OverwrittenForgotten(m: map<string, Value>, r: Record, rest: seq<Record>)
    requires Overwritten(r, rest)
    ensures BuildFrom(Step(m, r), rest) == BuildFrom(m, rest)
  {
    assert PathOf(r) != [];
    hide PathOf, LeafName, LeafOf, Insert;
    InsertAbsorbs(m, PathOf(r), LeafOf(r), PathOf(r), Null);
    DifferenceForgotten(Step(m, r), m, PathOf(r), rest);
  }

  /** For every list of records: the tree is that of the records that no later one overwrites. */
  lemma {:induction false} BuildKeepsSurvivors(m: map<string, Value>, rs: seq<Record>)
    ensures BuildFrom(m, rs) == BuildFrom(m, Survivors(rs))
    decreases |rs|
  {
    hide Overwritten, Step, BuildFrom;
    if rs != [] {
      var r, rest := rs[0], rs[1..];
      assert rs == [r] + rest;
      BuildCons(m, r, rest);
      if Overwritten(r, rest) {
        OverwrittenForgotten(m, r, rest);
        BuildKeepsSurvivors(m, rest);
        assert Survivors(rs) == Survivors(rest);
      } else {
        BuildKeepsSurvivors(Step(m, r), rest);
        BuildCons(m, r, Survivors(rest));
      }
    }
  }

  lemma BuildCons(m: map<string, Value>, r: Record, rest: seq<Record>)
    ensures BuildFrom(m, [r] + rest) == BuildFrom(Step(m, r), rest)
  {
  }

  lemma {:induction false} SurvivorsAmong(rs: seq<Record>)
    ensures forall r :: r in Survivors(rs) ==> r in rs
  {
    if rs != [] {
      SurvivorsAmong(rs[1..]);
    }
  }

  lemma {:induction false} SurvivorsInOrder(rs: seq<Record>)
    ensures ParentsFirst(Survivors(rs))
  {
    if rs != [] {
      hide PathOf, LeafName;
      SurvivorsInOrder(rs[1..]);
      SurvivorsAmong(rs[1..]);
    }
  }

  /** Where parents come first, every record survives. */
  lemma {:induction false} AllSurvive(rs: seq<Record>)
    requires ParentsFirst(rs)
    ensures Survivors(rs) == rs
  {
    if rs != [] {
      hide PathOf, LeafName;
      AllSurvive(rs[1..]);
      assert rs == [rs[0]] + rs[1..];
    }
  }

  /** The order in which the table is read: by backend path. */
  ghost predicate InTableOrder(rs: seq<Record>) {
    forall i, j :: 0 <= i < j < |rs| ==> Leq(rs[i].backendPath, rs[j].backendPath)
  }

  /** Backend paths written the standard way, and no two named records at one path. */
  ghost predicate TidyTable(rs: seq<Record>) {
    && (forall r :: r in rs ==> r.backendPath == Join('/', Segments(r.backendPath)))
    && (forall i, j :: 0 <= i < j < |rs| && HasName(rs[i]) && HasName(rs[j]) ==> PathOf(rs[i]) != PathOf(rs[j]))
  }

  lemma {:induction false} PrefixLeq(a: string, b: string)
    requires a <= b
    ensures Leq(a, b)
  {
    if a != "" {
      assert a[1..] <= b[1..] by { assert a[1..] == b[..|a|][1..]; }
      PrefixLeq(a[1..], b[1..]);
    }
  }

  lemma {:induction false} JoinPrefix(p: Path, q: Path)
    requires p <= q
    ensures Join('/', p) <= Join('/', q)
    decreases |p|
  {
    if p != [] && p != q {
      assert q == [p[0]] + q[1..];
      if |p| > 1 {
        assert p[1..] <= q[1..] by { assert p[1..] == q[..|p|][1..]; }
        JoinPrefix(p[1..], q[1..]);
      }
    }
  }

  lemma ParentSortsFirst(r: Record, s: Record)
    requires HasName(r) && HasName(s) && PathOf(s) < PathOf(r)
    requires r.backendPath == Join('/', Segments(r.backendPath))
    requires s.backendPath == Join('/', Segments(s.backendPath))
    ensures !Leq(r.backendPath, s.backendPath)
  {
    var a, b := Segments(s.backendPath), Segments(r.backendPath);
    assert a < b by {
      assert a == PathOf(s)[..|a|] && b == PathOf(r)[..|b|];
    }
    JoinPrefix(a, b);
    PrefixLeq(s.backendPath, r.backendPath);
    PathFree(r);
    PathFree(s);
    PrefixSlashFree(a, PathOf(s));
    PrefixSlashFree(b, PathOf(r));
    SameIdSamePath(a, b);
    if Leq(r.backendPath, s.backendPath) {
      LeqAntisymmetric(r.backendPath, s.backendPath);
    }
  }

  /** Read in table order, folders come before what lies in them, so nothing is overwritten. */
  lemma TableOrderSurvives(rs: seq<Record>)
    requires InTableOrder(rs) && TidyTable(rs)
    ensures ParentsFirst(rs) && Survivors(rs) == rs
  {
    forall i, j | 0 <= i < j < |rs| && HasName(rs[i]) && HasName(rs[j]) ensures !(PathOf(rs[j]) <= PathOf(rs[i])) {
      if PathOf(rs[j]) <= PathOf(rs[i]) {
        ParentSortsFirst(rs[i], rs[j]);
      }
    }
    AllSurvive(rs);
  }

  // ---- What a leaf is turned into ----

  function TextOf(v: Value): string {
    if v.Scalar? then v.text else ""
  }

  function Item(leaf: Value, key: string): string
    requires leaf.Dict?
  {
    if key in leaf.items then TextOf(leaf.items[key]) else ""
  }

  function SubfolderOf(leaf: Value): string
    requires leaf.Dict?
  {
    if "subfolder" in leaf.items then Item(leaf, "subfolder") else "/"
  }

  function HandlerOf(leaf: Value): string
    requires leaf.Dict?
  {
    Or(Item(leaf, "url_handler"), Item(leaf, "handler"))
  }

  /** The record that the walk in `config.py` writes down for a leaf found at `p`. */
  function RecordAt(p: Path, leaf: Value): Record
    requires p != [] && leaf.Dict?
  {
    var subfolder := SubfolderOf(leaf);
    Record(Join('/', p[..|p| - 1]), Join('/', p), Item(leaf, "url"), subfolder,
           Or(Item(leaf, "mode"), DetectMode(subfolder)),
           if HandlerOf(leaf) == "" then None else Some(HandlerOf(leaf)))
  }

  /** A record with its defaults filled in and its path written in the standard way. */
  function Canonical(r: Record): Record {
    var subfolder := Or(r.subfolder, "/");
    Record(Join('/', Segments(r.backendPath)), Join('/', PathOf(r)), r.url, subfolder,
           Or(r.mode, DetectMode(subfolder)), if r.handler == Some("") then None else r.handler)
  }

  lemma ReadsBackCanonical(r: Record)
    ensures RecordAt(PathOf(r), LeafOf(r)) == Canonical(r)
  {
  }

  /** A record comes back iff it has a name and a URL that is not blank. */
  predicate ComesBack(r: Record) {
    HasName(r) && !Blank(r.url)
  }

  datatype Descriptor = Descriptor(canonicalId: string, segments: Path, url: string, subfolder: string,
                                   mode: string, handler: string)

  /** `_parse_mode`, or else what the subfolder tells. */
  function ModeOf(text: string, subfolder: string): string {
    if !KnownMode(text) then DetectMode(subfolder)
    else if Lower(text) in {"zip", "zip-folder"} then "zip" else "plain"
  }

  /** `_normalize_url_handler` */
  function NormalizeHandler(text: string): string {
    var value := Lower(Strip(text));
    if value in {"rclone", "rclone-python"} then "rclone"
    else if value in {"http", "https", "ftp", "ftps"} then value
    else "auto"
  }

  /** The descriptor that the walk in `cachelinks.py` adds for a leaf found at `p`. */
  function DescriptorAt(p: Path, leaf: Value): Descriptor
    requires leaf.Dict?
  {
    var subfolder := Or(SubfolderOf(leaf), "/");
    Descriptor(Join('/', p), p, Strip(Item(leaf, "url")), subfolder, ModeOf(Item(leaf, "mode"), subfolder),
               NormalizeHandler(HandlerOf(leaf)))
  }

  function DescriptorOf(r: Record): Descriptor {
    DescriptorAt(PathOf(r), LeafOf(r))
  }

  // ---- What the walks raise on ----

  predicate HasTextUrl(leaf: Value) {
    leaf.Dict? && "url" in leaf.items && leaf.items["url"].Scalar?
  }

  /** A dictionary with something in it, which `strip` raises on. */
  predicate FullDict(leaf: Value, key: string)
    requires leaf.Dict?
  {
    key in leaf.items && leaf.items[key].Dict? && leaf.items[key].items != map[]
  }

  predicate Truthy(leaf: Value, key: string)
    requires leaf.Dict?
  {
    Item(leaf, key) != "" || FullDict(leaf, key)
  }

  predicate KnownMode(text: string) {
    Lower(text) in {"zip", "zip-folder", "plain", "directory"}
  }

  /** The two walks; `parses` says which texts the URL parser takes. */
  datatype Reader = InConfig | InCachelinks(parses: string -> bool)

  /** The walk gets through this leaf. Both detect the mode from the subfolder when none is given; the
      one in `cachelinks.py` also strips and parses the URL. */
  predicate Accepts(reader: Reader, leaf: Value) {
    leaf.Dict? &&
    match reader
    case InConfig => Truthy(leaf, "mode") || !FullDict(leaf, "subfolder")
    case InCachelinks(parses) =>
      && HasTextUrl(leaf) && parses(Strip(Item(leaf, "url")))
      && (KnownMode(Item(leaf, "mode")) || !FullDict(leaf, "subfolder"))
  }

  lemma RecordAccepted(reader: Reader, r: Record)
    ensures Accepts(reader, LeafOf(r)) <==> reader.InConfig? || reader.parses(Strip(r.url))
  {
  }

  // ---- Which leaves the walks find in a built tree ----

  predicate LeafNode(strict: bool, m: map<string, Value>, p: Path) {
    NodeAt(m, p).Some? && IsLeaf(strict, NodeAt(m, p).value)
  }

  /** A walk stops at the first leaf on its way down. */
  lemma {:induction false} LeafAtIff(strict: bool, m: map<string, Value>, p: Path)
    ensures LeafAt(strict, m, p) ==
              if LeafNode(strict, m, p) && forall i :: 1 <= i < |p| ==> !LeafNode(strict, m, p[..i])
              then NodeAt(m, p) else None
    decreases |p|
  {
    if p != [] && p[0] in m && m[p[0]].Dict? && |p| > 1 {
      assert p[..1] == [p[0]];
      if !IsLeaf(strict, m[p[0]]) {
        var below := m[p[0]].items;
        LeafAtIff(strict, below, p[1..]);
        forall i | 1 <= i < |p| - 1 ensures LeafNode(strict, below, p[1..][..i]) <==> LeafNode(strict, m, p[..i + 1]) {
          assert p[..i + 1][1..] == p[1..][..i];
        }
        assert forall i :: 2 <= i < |p| ==>
                             (LeafNode(strict, m, p[..i]) <==> LeafNode(strict, below, p[1..][..i - 1]));
      }
    }
  }

  /** A record with a URL stands at `q`. */
  predicate Cachelink(rs: seq<Record>, q: Path) {
    exists r :: r in rs && ComesBack(r) && PathOf(r) == q
  }

  /** A folder that a walk takes for a leaf because of the names in it; a record of a folder brings a
      subfolder of its own. */
  predicate Mistaken(strict: bool, rs: seq<Record>, q: Path) {
    && q != [] && OnTheWay(rs, q + ["url"])
    && (strict ==> OnTheWay(rs, q + ["subfolder"]) || Recorded(rs, q))
  }

  /** What stands under a name in a dictionary of the tree: another dictionary, never an empty one, or a
      field of the record at that dictionary. */
  lemma ItemAt(m: map<string, Value>, rs: seq<Record>, q: Path, k: string)
    requires Shape(m, rs) && q != [] && OnTheWay(rs, q)
    ensures DictAt(m, q)
    ensures OnTheWay(rs, q + [k]) ==> FullDict(NodeAt(m, q).value, k)
    ensures !OnTheWay(rs, q + [k]) ==>
              var items := NodeAt(m, q).value.items;
              && (k in items ==> !items[k].Dict? && Recorded(rs, q))
              && forall r :: r in rs && HasName(r) && PathOf(r) == q ==>
                               Field(r, k) == if k in items then Some(items[k]) else None
  {
    hide PathOf, LeafName, LeafOf, Field;
    assert ShapeAt(m, rs, q) && ShapeAt(m, rs, q + [k]) by {
      var node, below := NodeAt(m, q), NodeAt(m, q + [k]);
    }
    ChildNode(m, q, k);
    assert (q + [k])[..|q|] == q;
    if OnTheWay(rs, q + [k]) {
      NotEmpty(m, rs, q + [k]);
    }
  }

  lemma NotEmpty(m: map<string, Value>, rs: seq<Record>, q: Path)
    requires Shape(m, rs) && q != [] && OnTheWay(rs, q)
    ensures DictAt(m, q) && NodeAt(m, q).value.items != map[]
  {
    hide PathOf, LeafName;
    assert ShapeAt(m, rs, q) by { var node := NodeAt(m, q); }
    var r :| r in rs && HasName(r) && q <= PathOf(r);
    var k := if q == PathOf(r) then "url" else PathOf(r)[|q|];
    assert ShapeAt(m, rs, q + [k]) by { var node := NodeAt(m, q + [k]); }
    assert (q + [k])[..|q|] == q && Field(r, "url").Some?;
    assert q < PathOf(r) ==> q + [k] <= PathOf(r);
    hide NodeAt, LeafOf, Field;
    ChildNode(m, q, k);
  }

  lemma LeafNodeIff(strict: bool, m: map<string, Value>, rs: seq<Record>, q: Path)
    requires Shape(m, rs)
    ensures LeafNode(strict, m, q) <==> Mistaken(strict, rs, q) || Cachelink(rs, q)
    ensures Mistaken(strict, rs, q) ==> DictAt(m, q) && !HasTextUrl(NodeAt(m, q).value)
  {
    hide PathOf, LeafName;
    if q != [] && OnTheWay(rs, q) {
      ItemAt(m, rs, q, "url");
      ItemAt(m, rs, q, "subfolder");
      hide NodeAt, Shape;
      forall r ensures Field(r, "url") == Some(Scalar(r.url)) && Field(r, "subfolder").Some? {
      }
      hide LeafOf, Field;
    } else {
      NothingOffTheWay(strict, m, rs, q);
    }
  }

  lemma NothingOffTheWay(strict: bool, m: map<string, Value>, rs: seq<Record>, p: Path)
    requires Shape(m, rs) && (p == [] || !OnTheWay(rs, p))
    ensures !LeafNode(strict, m, p) && !Mistaken(strict, rs, p) && !Cachelink(rs, p)
  {
  }

  /** Nothing lies below a record with a URL. */
  ghost predicate NothingBelowCachelinks(rs: seq<Record>) {
    forall r, s :: r in rs && s in rs && ComesBack(r) && HasName(s) ==> !(PathOf(r) < PathOf(s))
  }

  lemma CachelinkIsLast(rs: seq<Record>, p: Path, q: Path)
    requires NothingBelowCachelinks(rs) && p < q && OnTheWay(rs, q)
    ensures !Cachelink(rs, p)
  {
  }

  /** A record with a URL keeps exactly its fields. */
  lemma CachelinkKept(m: map<string, Value>, rs: seq<Record>, r: Record)
    requires Shape(m, rs) && NothingBelowCachelinks(rs) && r in rs && ComesBack(r)
    ensures NodeAt(m, PathOf(r)) == Some(LeafOf(r))
  {
    var p := PathOf(r);
    assert p != [];
    hide PathOf, LeafName, Blank, LeafOf;
    assert OnTheWay(rs, p);
    assert DictAt(m, p) by { ItemAt(m, rs, p, ""); }
    forall k
      ensures k in NodeAt(m, p).value.items <==> k in LeafOf(r).items
      ensures k in LeafOf(r).items ==> NodeAt(m, p).value.items[k] == LeafOf(r).items[k]
    {
      assert !OnTheWay(rs, p + [k]) by {
        if OnTheWay(rs, p + [k]) { CachelinkIsLast(rs, p, p + [k]); }
      }
      ItemAt(m, rs, p, k);
    }
    assert NodeAt(m, p).value.items == LeafOf(r).items;
  }

  /** A walk of a built tree finds a path iff no folder above it is mistaken for a leaf, and there stands a
      record with a URL or a folder that is mistaken for a leaf. */
  lemma FoundIff(strict: bool, m: map<string, Value>, rs: seq<Record>, p: Path)
    requires Shape(m, rs) && NothingBelowCachelinks(rs)
    ensures LeafAt(strict, m, p).Some? <==>
              && (forall i :: 1 <= i < |p| ==> !Mistaken(strict, rs, p[..i]))
              && (Mistaken(strict, rs, p) || Cachelink(rs, p))
    ensures LeafAt(strict, m, p).Some? ==> LeafAt(strict, m, p) == NodeAt(m, p) && DictAt(m, p)
    ensures forall r :: r in rs && ComesBack(r) && PathOf(r) == p && LeafAt(strict, m, p).Some? ==>
                          LeafAt(strict, m, p) == Some(LeafOf(r))
    ensures !(Mistaken(strict, rs, p) && Cachelink(rs, p))
    ensures Mistaken(strict, rs, p) && LeafAt(strict, m, p).Some? ==> !HasTextUrl(LeafAt(strict, m, p).value)
  {
    LeafAtIff(strict, m, p);
    LeafNodeIff(strict, m, rs, p);
    hide PathOf, LeafName, LeafOf, IsLeaf, NodeAt, LeafAt, Blank, Shape;
    forall i | 1 <= i < |p|
      ensures LeafNode(strict, m, p[..i]) <==> Mistaken(strict, rs, p[..i]) || Cachelink(rs, p[..i])
    {
      LeafNodeIff(strict, m, rs, p[..i]);
    }
    if Mistaken(strict, rs, p) || Cachelink(rs, p) {
      assert OnTheWay(rs, p);
      forall i | 1 <= i < |p| ensures !Cachelink(rs, p[..i]) {
        CachelinkIsLast(rs, p[..i], p);
      }
    }
    if Mistaken(strict, rs, p) {
      CachelinkIsLast(rs, p, p + ["url"]);
    }
    forall r | r in rs && ComesBack(r) && PathOf(r) == p ensures NodeAt(m, p) == Some(LeafOf(r)) {
      CachelinkKept(m, rs, r);
    }
  }

  /** A mistaken folder that no other one lies above. */
  predicate Topmost(strict: bool, rs: seq<Record>, q: Path) {
    Mistaken(strict, rs, q) && forall i :: 1 <= i < |q| ==> !Mistaken(strict, rs, q[..i])
  }

  /** Every folder mistaken for a leaf lies under a topmost one, which the walk reports. */
  lemma {:induction false} TopmostMistake(strict: bool, m: map<string, Value>, rs: seq<Record>, q: Path)
    returns (top: Path)
    requires Shape(m, rs) && NothingBelowCachelinks(rs) && Mistaken(strict, rs, q)
    ensures Topmost(strict, rs, top) && LeafAt(strict, m, top).Some?
    decreases |q|
  {
    if i :| 1 <= i < |q| && Mistaken(strict, rs, q[..i]) {
      top := TopmostMistake(strict, m, rs, q[..i]);
    } else {
      top := q;
      FoundIff(strict, m, rs, q);
    }
  }

  /** The walk finds the records that are to come back and nothing else. */
  ghost predicate FindsRecords(strict: bool, m: map<string, Value>, rs: seq<Record>) {
    forall p :: LeafAt(strict, m, p).Some? <==> Cachelink(rs, p)
  }

  /** Where nothing lies below a record with a URL, a walk finds exactly those records iff it mistakes no
      folder: the loose walk is misled by anything called "url" in a folder, the strict one if that folder
      also has a "subfolder", its own or something of that name in it. */
  lemma FindsRecordsIff(strict: bool, m: map<string, Value>, rs: seq<Record>)
    requires Shape(m, rs) && NothingBelowCachelinks(rs)
    ensures FindsRecords(strict, m, rs) <==> forall q :: !Mistaken(strict, rs, q)
  {
    hide LeafAt, PathOf, LeafName, Blank, Mistaken, Cachelink;
    if q :| Mistaken(strict, rs, q) {
      var top := TopmostMistake(strict, m, rs, q);
      FoundIff(strict, m, rs, top);
    } else {
      forall p ensures LeafAt(strict, m, p).Some? <==> Cachelink(rs, p) {
        FoundIff(strict, m, rs, p);
      }
    }
  }

  /** No folder step of a named record below its first is called "url". */
  predicate Ordinary(r: Record) {
    HasName(r) ==> "url" !in PathOf(r)[1..]
  }

  /** The loose walk mistakes a folder iff some record has a step called "url" below its first. */
  lemma LooseMistakeIff(rs: seq<Record>)
    ensures (exists q :: Mistaken(false, rs, q)) <==> exists r :: r in rs && !Ordinary(r)
  {
    hide LeafName;
    if r :| r in rs && !Ordinary(r) {
      var i :| 0 <= i < |PathOf(r)[1..]| && PathOf(r)[1..][i] == "url";
      var q := PathOf(r)[..i + 1];
      assert q + ["url"] == PathOf(r)[..i + 2];
      assert Mistaken(false, rs, q);
    }
    if q :| Mistaken(false, rs, q) {
      var r :| r in rs && HasName(r) && q + ["url"] <= PathOf(r);
      assert PathOf(r)[1..][|q| - 1] == "url";
      assert !Ordinary(r);
    }
  }

  // ---- Canonical form is stable ----

  lemma {:induction false} NonEmptyFields(fields: seq<string>)
    requires AllFree('/', fields)
    ensures AllFree('/', NonEmpty(fields)) && "" !in NonEmpty(fields)
  {
    if fields != [] {
      assert fields[0] in fields;
      NonEmptyFields(fields[1..]);
    }
  }

  lemma {:induction false} NonEmptyKeeps(fields: seq<string>)
    requires "" !in fields
    ensures NonEmpty(fields) == fields
  {
    if fields != [] {
      assert fields[0] in fields;
      NonEmptyKeeps(fields[1..]);
    }
  }

  lemma SegmentsOfJoin(p: Path)
    requires AllFree('/', p) && "" !in p
    ensures Segments(Join('/', p)) == p
  {
    if p == [] {
      assert Split('/', "") == [""];
    } else {
      SplitJoin('/', p);
      NonEmptyKeeps(p);
    }
  }

  lemma PathFree(r: Record)
    requires HasName(r)
    ensures AllFree('/', PathOf(r)) && "" !in PathOf(r)
  {
    SplitLeavesNoSeparator('/', r.backendPath);
    NonEmptyFields(Split('/', r.backendPath));
    SplitLeavesNoSeparator('/', r.canonicalId);
  }

  /** What came back stands at the same path, and going round again changes nothing. */
  lemma CanonicalIsStable(r: Record)
    requires HasName(r)
    ensures PathOf(Canonical(r)) == PathOf(r) && ComesBack(Canonical(r)) == ComesBack(r)
    ensures Canonical(Canonical(r)) == Canonical(r)
  {
    PathFree(r);
    var p := PathOf(r);
    SplitJoin('/', p);
    assert LeafName(Canonical(r)) == p[|p| - 1];
    assert p[..|p| - 1] == Segments(r.backendPath);
    SegmentsOfJoin(Segments(r.backendPath));
  }

  /** Ids built from different paths differ. */
  lemma DifferentPathsDifferentIds(r: Record, s: Record)
    requires HasName(r) && HasName(s)
    ensures Canonical(r).canonicalId == Canonical(s).canonicalId <==> PathOf(r) == PathOf(s)
  {
    PathFree(r);
    PathFree(s);
    if Join('/', PathOf(r)) == Join('/', PathOf(s)) {
      JoinInjective('/', PathOf(r), PathOf(s));
    }
  }

  // ---- What comes back, field by field ----

  /** The name of a record is what follows the last slash of its id. */
  lemma LeafNameMeans(r: Record) returns (front: string)
    ensures '/' !in LeafName(r)
    ensures r.canonicalId == LeafName(r) || r.canonicalId == front + "/" + LeafName(r)
  {
    var fields := Split('/', r.canonicalId);
    var n := |fields| - 1;
    SplitLeavesNoSeparator('/', r.canonicalId);
    JoinSplit('/', r.canonicalId);
    assert LeafName(r) in fields;
    front := "";
    if n > 0 {
      assert fields == fields[..n] + [fields[n]];
      JoinSnoc('/', fields[..n], fields[n]);
      front := Join('/', fields[..n]);
    }
  }

  /** The folder segments of a text are the pieces between its slashes, empty ones dropped. */
  lemma {:induction false} NonEmptyMeans(a: seq<string>, b: seq<string>)
    ensures NonEmpty(a + b) == NonEmpty(a) + NonEmpty(b)
    ensures |b| == 1 ==> NonEmpty(b) == if b[0] == "" then [] else b
  {
    NonEmptyOne(b);
    if a == [] {
      assert a + b == b;
    } else {
      NonEmptyMeans(a[1..], b);
      FirstOfBoth(a, b);
      var first := if a[0] != "" then [a[0]] else [];
      Regroup(first, NonEmpty(a[1..]), NonEmpty(b));
    }
  }

  lemma NonEmptyOne(b: seq<string>)
    ensures |b| == 1 ==> NonEmpty(b) == if b[0] == "" then [] else b
  {
  }

  lemma FirstOfBoth(a: seq<string>, b: seq<string>)
    requires a != []
    ensures (a + b)[0] == a[0] && (a + b)[1..] == a[1..] + b
  {
  }

  lemma Regroup(a: Path, b: Path, c: Path)
    ensures a + (b + c) == (a + b) + c
  {
  }

  /** A subfolder written with single slashes, with or without one at its start, and no blank at its ends. */
  predicate Written(subfolder: string, segments: Path) {
    && SlashFree(segments)
    && (subfolder == Join('/', segments) || subfolder == "/" + Join('/', segments))
    && (subfolder != "" ==> !IsSpace(subfolder[0]) && !IsSpace(subfolder[|subfolder| - 1]))
  }

  lemma WrittenSegments(subfolder: string, segments: Path)
    requires Written(subfolder, segments)
    ensures Segments(Strip(subfolder)) == segments
  {
    assert Strip(subfolder) == subfolder;
    SegmentsOfJoin(segments);
    if subfolder == "/" + Join('/', segments) {
      assert subfolder[1..] == Join('/', segments);
      var fields := Split('/', Join('/', segments));
      assert Split('/', subfolder) == [""] + fields;
      NonEmptyMeans([""], fields);
    }
  }

  /** Some segment other than the last names a zip file. */
  predicate InsideZip(segments: Path) {
    exists i :: 0 <= i < |segments| - 1 && |segments[i]| >= 4 && segments[i][|segments[i]| - 4..] == ".zip"
  }

  /** Without a mode of its own a record comes back, and is loaded, as a zip iff its subfolder leads into a
      zip file. */
  lemma ModeDetected(r: Record, segments: Path)
    requires r.mode == "" && Written(Or(r.subfolder, "/"), segments)
    ensures RecordAt(PathOf(r), LeafOf(r)).mode == if InsideZip(segments) then "zip" else "plain"
    ensures DescriptorOf(r).mode == if InsideZip(segments) then "zip" else "plain"
  {
    var subfolder := Or(r.subfolder, "/");
    WrittenSegments(subfolder, segments);
    assert DetectMode(subfolder) == if InsideZip(segments) then "zip" else "plain";
    ReadsBackCanonical(r);
    ModeMeans("zip", subfolder);
    ModeMeans("plain", subfolder);
    assert Item(LeafOf(r), "mode") == DetectMode(subfolder);
  }

  lemma ModeMeans(mode: string, subfolder: string)
    ensures mode in {"zip", "zip-folder"} ==> ModeOf(mode, subfolder) == "zip"
    ensures mode in {"plain", "directory"} ==> ModeOf(mode, subfolder) == "plain"
    ensures Lower(mode) !in {"zip", "zip-folder", "plain", "directory"} ==>
              ModeOf(mode, subfolder) == DetectMode(subfolder)
    ensures ModeOf(mode, subfolder) == ModeOf(Lower(mode), subfolder)
  {
    LowerMeans(mode);
    LowerMeans(Lower(mode));
    assert Lower(Lower(mode)) == Lower(mode);
    assert Lower("zip") == "zip" && Lower("zip-folder") == "zip-folder";
    assert Lower("plain") == "plain" && Lower("directory") == "directory";
  }

  /** A record in standard form: paths written the standard way and no default left open. */
  predicate Standard(r: Record) {
    && r.backendPath == Join('/', Segments(r.backendPath)) && r.canonicalId == Join('/', PathOf(r))
    && r.subfolder != "" && r.mode != "" && r.handler != Some("")
  }

  /** What a record comes back with: what it was given, and defaults for the rest. */
  lemma ComesBackWith(r: Record)
    ensures var b := RecordAt(PathOf(r), LeafOf(r));
            && b.url == r.url && b.canonicalId == Join('/', PathOf(r))
            && b.backendPath == Join('/', Segments(r.backendPath))
            && b.subfolder == (if r.subfolder == "" then "/" else r.subfolder)
            && (r.mode != "" ==> b.mode == r.mode)
            && (r.handler.Some? && r.handler.value != "" ==> b.handler == r.handler)
            && (r.handler == None || r.handler == Some("") ==> b.handler == None)
            && (Standard(r) ==> b == r)
  {
    ReadsBackCanonical(r);
  }

  /** The handlers that are known, in small letters, however they are written; anything else is "auto". */
  lemma HandlerMeans(text: string)
    ensures var value, handler := Lower(Strip(text)), NormalizeHandler(text);
            && (value in {"http", "https", "ftp", "ftps", "rclone"} ==> handler == value)
            && (value == "rclone-python" ==> handler == "rclone")
            && (value !in {"http", "https", "ftp", "ftps", "rclone", "rclone-python"} ==> handler == "auto")
    ensures NormalizeHandler("") == "auto"
  {
  }

  /** The defaults of a leaf that leaves something out, in both walks. */
  lemma LeafDefaults(p: Path, leaf: Value)
    requires p != [] && leaf.Dict?
    ensures "subfolder" !in leaf.items ==>
              RecordAt(p, leaf).subfolder == "/" && DescriptorAt(p, leaf).subfolder == "/"
    ensures "subfolder" in leaf.items && leaf.items["subfolder"] in {Null, Scalar("")} ==>
              DescriptorAt(p, leaf).subfolder == "/"
    ensures ("url_handler" !in leaf.items || leaf.items["url_handler"] in {Null, Scalar("")})
            && "handler" in leaf.items && leaf.items["handler"].Scalar? && leaf.items["handler"].text != "" ==>
              && RecordAt(p, leaf).handler == Some(leaf.items["handler"].text)
              && DescriptorAt(p, leaf).handler == NormalizeHandler(leaf.items["handler"].text)
  {
  }

  /** What the two walks need of a leaf: a mode that is given, or a subfolder it can be detected from, and in
      `cachelinks.py` a URL that is a text and parses. */
  lemma AcceptsMeans(parses: string -> bool, leaf: Value)
    requires leaf.Dict?
    ensures var detectable := "subfolder" in leaf.items && leaf.items["subfolder"].Dict? ==>
                                leaf.items["subfolder"] == Dict(map[]);
            var mode := if "mode" in leaf.items then leaf.items["mode"] else Null;
            && (Accepts(InConfig, leaf) <==> detectable || mode !in {Null, Scalar(""), Dict(map[])})
            && (Accepts(InCachelinks(parses), leaf) <==>
                  && "url" in leaf.items && leaf.items["url"].Scalar? && parses(Strip(leaf.items["url"].text))
                  && (detectable || (mode.Scalar? && Lower(mode.text) in {"zip", "zip-folder", "plain", "directory"})))
  {
    assert Lower("") == "";
  }

  /** What a record is loaded as. */
  lemma LoadsAs(r: Record)
    ensures var d := DescriptorOf(r);
            && d.segments == Segments(r.backendPath) + [LeafName(r)] && d.canonicalId == Join('/', d.segments)
            && d.url == Strip(r.url) && d.subfolder == (if r.subfolder == "" then "/" else r.subfolder)
            && (r.mode in {"zip", "zip-folder"} ==> d.mode == "zip")
            && (r.mode in {"plain", "directory"} ==> d.mode == "plain")
            && (r.handler == None ==> d.handler == "auto")
            && (r.handler.Some? ==> d.handler == NormalizeHandler(r.handler.value))
  {
    ModeMeans(r.mode, Or(r.subfolder, "/"));
    HandlerMeans("");
  }

  // ---- Insertion order does not matter ----

  /** Two records do not get in each other's way. */
  predicate Compatible(r: Record, s: Record) {
    HasName(r) && HasName(s) ==> Apart(PathOf(r), PathOf(s))
  }

  /** No named record lies at or under another one. */
  ghost predicate PathsApart(rs: seq<Record>) {
    forall i, j :: 0 <= i < j < |rs| ==> Compatible(rs[i], rs[j])
  }

  lemma StepsCommute(m: map<string, Value>, r: Record, s: Record)
    requires Compatible(r, s)
    ensures Step(Step(m, r), s) == Step(Step(m, s), r)
  {
    if HasName(r) && HasName(s) {
      InsertCommutes(m, PathOf(r), LeafOf(r), PathOf(s), LeafOf(s));
    }
  }

  lemma TailOf(rs: seq<Record>, rest: seq<Record>)
    requires rs != []
    ensures (rs + rest)[0] == rs[0] && (rs + rest)[1..] == rs[1..] + rest
  {
  }

  lemma {:induction false} MoveToFront(m: map<string, Value>, rs: seq<Record>, r: Record, rest: seq<Record>)
    requires forall s :: s in rs ==> Compatible(s, r)
    ensures BuildFrom(m, rs + ([r] + rest)) == BuildFrom(Step(m, r), rs + rest)
    decreases |rs|
  {
    if rs == [] {
      TailOf([r], rest);
      assert [] + ([r] + rest) == [r] + rest && [r][1..] + rest == rest && [] + rest == rest;
    } else {
      assert rs[0] in rs;
      TailOf(rs, [r] + rest);
      TailOf(rs, rest);
      MoveToFront(Step(m, rs[0]), rs[1..], r, rest);
      StepsCommute(m, rs[0], r);
    }
  }

  /** Taking one record out of both lists leaves the same records. */
  lemma TakeOut(rs: seq<Record>, rs': seq<Record>, i: nat)
    requires rs != [] && i < |rs'| && rs'[i] == rs[0] && multiset(rs) == multiset(rs')
    ensures rs' == rs'[..i] + ([rs[0]] + rs'[i + 1..])
    ensures multiset(rs[1..]) == multiset(rs'[..i] + rs'[i + 1..])
  {
    var r, before, after := rs[0], rs'[..i], rs'[i + 1..];
    assert rs == [r] + rs[1..];
    assert rs' == before + ([r] + after);
    assert multiset(rs[1..]) == multiset(rs) - multiset{r};
    assert multiset([r] + after) == multiset{r} + multiset(after);
    assert multiset(before + after) == multiset(rs') - multiset{r};
  }

  lemma ApartFromFirst(rs: seq<Record>, s: Record)
    requires rs != [] && PathsApart(rs) && s in multiset(rs[1..])
    ensures Compatible(s, rs[0])
  {
  }

  /** Two listings of the same records, in any order, build the same tree. */
  lemma {:induction false} OrderDoesNotMatter(m: map<string, Value>, rs: seq<Record>, rs': seq<Record>)
    requires PathsApart(rs) && multiset(rs) == multiset(rs')
    ensures BuildFrom(m, rs) == BuildFrom(m, rs')
    decreases |rs|
  {
    if rs == [] {
      assert |multiset(rs')| == 0;
    } else {
      assert rs[0] in multiset(rs);
      var i :| 0 <= i < |rs'| && rs'[i] == rs[0];
      TakeOut(rs, rs', i);
      var before, after := rs'[..i], rs'[i + 1..];
      forall s | s in before ensures Compatible(s, rs[0]) {
        assert s in multiset(before + after);
        ApartFromFirst(rs, s);
      }
      MoveToFront(m, before, rs[0], after);
      OrderDoesNotMatter(Step(m, rs[0]), rs[1..], before + after);
    }
  }

  // ---- What a walk meets ----

  /** Walking the entries `done` of `m` below `prefix` meets a leaf that the reader cannot take. */
  ghost predicate Raises(reader: Reader, m: map<string, Value>, prefix: Path, done: set<string>) {
    exists q :: && Hit(reader.InConfig?, m, prefix, done, q).Some?
                && !Accepts(reader, Hit(reader.InConfig?, m, prefix, done, q).value)
  }

  lemma RaisesMore(reader: Reader, m: map<string, Value>, prefix: Path, done: set<string>, k: string)
    requires k !in done
    ensures Raises(reader, m, prefix, done + {k}) <==>
              Raises(reader, m, prefix, done) || Raises(reader, m, prefix, {k})
  {
    hide Hit, Accepts;
    var strict := reader.InConfig?;
    forall q ensures
      var old', new' := Hit(strict, m, prefix, done, q), Hit(strict, m, prefix, {k}, q);
      && (old'.None? || new'.None?)
      && Hit(strict, m, prefix, done + {k}, q) == if new'.Some? then new' else old'
    {
      HitMore(strict, m, prefix, done, k, q);
    }
  }

  lemma RaisesAt(reader: Reader, m: map<string, Value>, prefix: Path, k: string)
    requires k in m
    ensures Raises(reader, m, prefix, {k}) <==>
              m[k].Dict? && if IsLeaf(reader.InConfig?, m[k]) then !Accepts(reader, m[k])
                            else Raises(reader, m[k].items, prefix + [k], m[k].items.Keys)
  {
    var strict := reader.InConfig?;
    if m[k].Dict? {
      forall q
        ensures IsLeaf(strict, m[k]) ==>
                  Hit(strict, m, prefix, {k}, q) == if q == prefix + [k] then Some(m[k]) else None
        ensures !IsLeaf(strict, m[k]) ==>
                  Hit(strict, m, prefix, {k}, q) == Hit(strict, m[k].items, prefix + [k], m[k].items.Keys, q)
      {
        HitBelow(strict, m, prefix, k, q);
      }
      hide Hit, IsLeaf, Accepts;
      if IsLeaf(strict, m[k]) {
        assert Hit(strict, m, prefix, {k}, prefix + [k]) == Some(m[k]);
      } else {
        SameHitsSameRaises(reader, m, prefix, k);
      }
    } else {
      forall q ensures Hit(strict, m, prefix, {k}, q) == None {
      }
    }
  }

  lemma SameHitsSameRaises(reader: Reader, m: map<string, Value>, prefix: Path, k: string)
    requires k in m && m[k].Dict?
    requires forall q :: Hit(reader.InConfig?, m, prefix, {k}, q) ==
                           Hit(reader.InConfig?, m[k].items, prefix + [k], m[k].items.Keys, q)
    ensures Raises(reader, m, prefix, {k}) <==> Raises(reader, m[k].items, prefix + [k], m[k].items.Keys)
  {
  }

  lemma NothingRaisesYet(reader: Reader, m: map<string, Value>, prefix: Path)
    ensures !Raises(reader, m, prefix, m.Keys - m.Keys)
  {
  }

  lemma NothingWrittenYet(found: map<Path, Value>, strict: bool, m: map<string, Value>, prefix: Path)
    ensures Writes(found, found, strict, m, prefix, m.Keys - m.Keys)
  {
  }

  lemma RaisesAnyway(reader: Reader, m: map<string, Value>, prefix: Path, done: set<string>)
    requires done <= m.Keys && Raises(reader, m, prefix, done)
    ensures Raises(reader, m, prefix, m.Keys)
  {
    var strict := reader.InConfig?;
    var q :| Hit(strict, m, prefix, done, q).Some? && !Accepts(reader, Hit(strict, m, prefix, done, q).value);
    assert Hit(strict, m, prefix, m.Keys, q) == Hit(strict, m, prefix, done, q);
  }

  /** The walk finds a leaf at `p` that the reader cannot take. */
  predicate Obstacle(reader: Reader, m: map<string, Value>, p: Path) {
    LeafAt(reader.InConfig?, m, p).Some? && !Accepts(reader, LeafAt(reader.InConfig?, m, p).value)
  }

  /** A whole walk raises iff it finds a leaf that the reader cannot take. */
  lemma RaisesIffFound(reader: Reader, m: map<string, Value>)
    ensures Raises(reader, m, [], m.Keys) <==>
              exists p :: Obstacle(reader, m, p)
  {
    forall q ensures Hit(reader.InConfig?, m, [], m.Keys, q) == LeafAt(reader.InConfig?, m, q) {
    }
    hide Hit, LeafAt, Accepts;
    if p :| Obstacle(reader, m, p) {
      assert Hit(reader.InConfig?, m, [], m.Keys, p).Some?;
    }
    if q :| Hit(reader.InConfig?, m, [], m.Keys, q).Some?
            && !Accepts(reader, Hit(reader.InConfig?, m, [], m.Keys, q).value)
    {
      assert Obstacle(reader, m, q);
    }
  }

  lemma RecordsRaise(reader: Reader, m: map<string, Value>, rs: seq<Record>)
    requires Shape(m, rs) && NothingBelowCachelinks(rs) && forall q :: !Mistaken(reader.InConfig?, rs, q)
    ensures Raises(reader, m, [], m.Keys) <==>
              exists r :: r in rs && ComesBack(r) && !Accepts(reader, LeafOf(r))
  {
    RaisesIffFound(reader, m);
    FindsRecordsIff(reader.InConfig?, m, rs);
    hide LeafAt, PathOf, LeafName, LeafOf, Blank, Accepts, Raises;
    if p :| Obstacle(reader, m, p) {
      FoundIff(reader.InConfig?, m, rs, p);
      var r :| r in rs && ComesBack(r) && PathOf(r) == p;
    }
    if r :| r in rs && ComesBack(r) && !Accepts(reader, LeafOf(r)) {
      assert Cachelink(rs, PathOf(r));
      FoundIff(reader.InConfig?, m, rs, PathOf(r));
      assert Obstacle(reader, m, PathOf(r));
    }
  }

  ghost predicate NothingBelow(found: map<Path, Value>, prefix: Path) {
    forall q :: q in found ==> !(prefix < q)
  }

  lemma NothingBelowYet(start: map<Path, Value>, found: map<Path, Value>, strict: bool, m: map<string, Value>,
                        prefix: Path, done: set<string>, k: string)
    requires NothingBelow(start, prefix) && Writes(start, found, strict, m, prefix, done) && k !in done
    ensures prefix + [k] !in found && NothingBelow(found, prefix + [k])
  {
  }

  // ---- The walk in config.py ----

  class Collector {
    var cachelinks: seq<Record>
    ghost var paths: seq<Path>
    ghost var found: map<Path, Value>

    /** The list holds one record for each leaf found. */
    ghost predicate Valid()
      reads this
    {
      && |paths| == |cachelinks|
      && (forall i, j :: 0 <= i < j < |paths| ==> paths[i] != paths[j])
      && (forall p :: p in found <==> p in paths)
      && (forall i :: 0 <= i < |paths| ==>
            paths[i] != [] && found[paths[i]].Dict? && cachelinks[i] == RecordAt(paths[i], found[paths[i]]))
    }

    constructor ()
      ensures Valid() && found == map[] && cachelinks == []
    {
      cachelinks, paths, found := [], [], map[];
    }

    method Append(p: Path, leaf: Value)
      requires Valid() && p !in found && p != [] && leaf.Dict?
      modifies this
      ensures Valid() && found == old(found)[p := leaf]
    {
      cachelinks := cachelinks + [RecordAt(p, leaf)];
      paths := paths + [p];
      found := found[p := leaf];
    }

    /** The recursive walk, appending to one shared list; it ends at once when something raises. */
    method Walk(m: map<string, Value>, prefix: Path) returns (raised: bool)
      requires Valid() && NothingBelow(found, prefix)
      modifies this
      ensures raised <==> Raises(InConfig, m, prefix, m.Keys)
      ensures !raised ==> Valid() && Writes(old(found), found, true, m, prefix, m.Keys)
      decreases Dict(m)
    {
      hide Valid, IsLeaf, LeafAt, Hit, Accepts;
      var keys := m.Keys;
      raised := false;
      NothingRaisesYet(InConfig, m, prefix);
      NothingWrittenYet(found, true, m, prefix);
      while keys != {}
        invariant keys <= m.Keys && Valid()
        invariant !Raises(InConfig, m, prefix, m.Keys - keys)
        invariant Writes(old(found), found, true, m, prefix, m.Keys - keys)
        decreases keys
      {
        var k :| k in keys;
        var v := m[k];
        ghost var before, done := found, m.Keys - keys;
        NothingBelowYet(old(found), found, true, m, prefix, done, k);
        RaisesAt(InConfig, m, prefix, k);
        RaisesMore(InConfig, m, prefix, done, k);
        if v.Dict? && IsLeaf(true, v) {
          if Accepts(InConfig, v) {
            Append(prefix + [k], v);
          } else {
            raised := true;
          }
        } else if v.Dict? {
          raised := Walk(v.items, prefix + [k]);
        }
        if raised {
          RaisesAnyway(InConfig, m, prefix, done + {k});
          return;
        }
        WalkStep(old(found), before, found, true, m, prefix, done, k);
        assert m.Keys - (keys - {k}) == done + {k};
        keys := keys - {k};
      }
      assert m.Keys - {} == m.Keys;
    }
  }

  /** What the walk in `config.py` is for: each record with a name and a URL once, in canonical form. */
  ghost predicate CameBack(rs: seq<Record>, back: seq<Record>) {
    && (forall r :: r in rs && ComesBack(r) ==> Canonical(r) in back)
    && (forall b :: b in back ==> exists r :: r in rs && ComesBack(r) && b == Canonical(r))
    && (forall i, j :: 0 <= i < j < |back| ==> back[i] != back[j])
  }

  /** A mistaken folder that has a folder called "subfolder" in it and nothing to say its mode. */
  predicate Chokes(rs: seq<Record>, q: Path) {
    && Topmost(true, rs, q) && OnTheWay(rs, q + ["subfolder"])
    && !OnTheWay(rs, q + ["mode"]) && !Recorded(rs, q)
  }

  /** List to tree to list, for every list whose survivors have nothing below a record with a URL: the
      walk raises iff it meets a folder it chokes on, and what survived comes back iff it mistakes no
      folder for a leaf. */
  method Reload(rs: seq<Record>) returns (back: Option<seq<Record>>)
    requires NothingBelowCachelinks(Survivors(rs))
    ensures back.None? <==> exists q :: Chokes(Survivors(rs), q)
    ensures back.Some? ==>
              (CameBack(Survivors(rs), back.value) <==> forall q :: !Mistaken(true, Survivors(rs), q))
  {
    hide Mistaken, Chokes, CameBack, LeafAt, Shape, NothingBelowCachelinks, Survivors, RecordAt, Raises, Writes;
    var tree := Build(rs);
    var collector := new Collector();
    var raised := collector.Walk(tree, []);
    ghost var kept := Survivors(rs);
    BuildKeepsSurvivors(map[], rs);
    SurvivorsInOrder(rs);
    BuildShape(kept);
    ChokesIffRaises(tree, kept);
    if raised {
      return None;
    }
    WalkFindsLeaves(true, tree, collector.found);
    FindsRecordsIff(true, tree, kept);
    CameBackIff(kept, tree, collector.paths, collector.cachelinks);
    return Some(collector.cachelinks);
  }

  /** What the config walk says to a topmost mistaken folder. */
  lemma MistakenAccepted(m: map<string, Value>, rs: seq<Record>, q: Path)
    requires Shape(m, rs) && NothingBelowCachelinks(rs) && Topmost(true, rs, q)
    ensures LeafAt(true, m, q).Some?
    ensures Accepts(InConfig, LeafAt(true, m, q).value) <==> !Chokes(rs, q)
  {
    FoundIff(true, m, rs, q);
    ItemAt(m, rs, q, "subfolder");
    ItemAt(m, rs, q, "mode");
    hide LeafAt, NodeAt, PathOf, LeafName, Blank, Shape, DetectMode;
    forall r ensures Field(r, "mode").Some? && Field(r, "mode").value.Scalar? && Field(r, "mode").value.text != "" {
      ModeIsSaid(r);
    }
    hide Field, LeafOf;
  }

  lemma ModeIsSaid(r: Record)
    ensures var mode := Field(r, "mode"); mode.Some? && mode.value.Scalar? && mode.value.text != ""
  {
  }

  lemma ChokesIffRaises(m: map<string, Value>, rs: seq<Record>)
    requires Shape(m, rs) && NothingBelowCachelinks(rs)
    ensures Raises(InConfig, m, [], m.Keys) <==> exists q :: Chokes(rs, q)
  {
    RaisesIffFound(InConfig, m);
    hide LeafAt, PathOf, LeafName, LeafOf, Blank, Accepts, Raises, Shape, Mistaken;
    if q :| Chokes(rs, q) {
      MistakenAccepted(m, rs, q);
      assert Obstacle(InConfig, m, q);
    }
    if p :| Obstacle(InConfig, m, p) {
      FoundIff(true, m, rs, p);
      if Cachelink(rs, p) {
        var r :| r in rs && ComesBack(r) && PathOf(r) == p;
        RecordAccepted(InConfig, r);
      }
      MistakenAccepted(m, rs, p);
    }
  }

  predicate SlashFree(p: Path) {
    AllFree('/', p) && "" !in p
  }

  /** What a walk finds lies on the way to a record, so its segments are proper ones. */
  lemma FoundOnTheWay(strict: bool, rs: seq<Record>, tree: map<string, Value>, p: Path)
    requires Shape(tree, rs) && NothingBelowCachelinks(rs) && LeafAt(strict, tree, p).Some?
    ensures SlashFree(p)
  {
    hide LeafAt, PathOf, LeafName, Blank;
    FoundIff(strict, tree, rs, p);
    if Mistaken(strict, rs, p) {
      var r :| r in rs && HasName(r) && p + ["url"] <= PathOf(r);
      PathFree(r);
      PrefixSlashFree(p, PathOf(r));
    } else {
      var r :| r in rs && ComesBack(r) && PathOf(r) == p;
      PathFree(r);
    }
  }

  lemma PrefixSlashFree(p: Path, q: Path)
    requires p <= q && SlashFree(q)
    ensures SlashFree(p)
  {
  }

  lemma SameIdSamePath(p: Path, q: Path)
    requires SlashFree(p) && SlashFree(q)
    ensures Join('/', p) == Join('/', q) <==> p == q
  {
    if Join('/', p) == Join('/', q) {
      JoinInjective('/', p, q);
    }
  }

  lemma SameRecordIff(rs: seq<Record>, tree: map<string, Value>, r: Record, p: Path)
    requires Shape(tree, rs) && NothingBelowCachelinks(rs) && r in rs && ComesBack(r)
    requires p != [] && LeafAt(true, tree, p).Some? && LeafAt(true, tree, p).value.Dict?
    ensures RecordAt(p, LeafAt(true, tree, p).value) == Canonical(r) <==> PathOf(r) == p
  {
    hide LeafAt, PathOf, LeafName, Blank, LeafOf;
    if PathOf(r) == p {
      FoundIff(true, tree, rs, p);
      ReadsBackCanonical(r);
    } else {
      FoundOnTheWay(true, rs, tree, p);
      PathFree(r);
      SameIdSamePath(p, PathOf(r));
    }
  }

  lemma RecordsDiffer(p: Path, v: Value, q: Path, w: Value)
    requires p != [] && q != [] && v.Dict? && w.Dict? && SlashFree(p) && SlashFree(q) && p != q
    ensures RecordAt(p, v) != RecordAt(q, w)
  {
    SameIdSamePath(p, q);
  }

  /** `back` lists one record for each leaf, at `paths`. */
  ghost predicate ListsLeaves(tree: map<string, Value>, paths: seq<Path>, back: seq<Record>) {
    && |paths| == |back|
    && (forall i, j :: 0 <= i < j < |paths| ==> paths[i] != paths[j])
    && (forall p :: p in paths <==> LeafAt(true, tree, p).Some?)
    && (forall i :: 0 <= i < |paths| ==>
          && paths[i] != [] && paths[i] in paths && LeafAt(true, tree, paths[i]).value.Dict?
          && back[i] == RecordAt(paths[i], LeafAt(true, tree, paths[i]).value))
  }

  lemma CameBackIff(rs: seq<Record>, tree: map<string, Value>, paths: seq<Path>, back: seq<Record>)
    requires Shape(tree, rs) && NothingBelowCachelinks(rs) && ListsLeaves(tree, paths, back)
    ensures CameBack(rs, back) <==> FindsRecords(true, tree, rs)
  {
    hide LeafAt, PathOf, LeafName, Blank, LeafOf, Canonical, RecordAt, Shape, NothingBelowCachelinks;
    forall i, r | 0 <= i < |paths| && r in rs && ComesBack(r)
      ensures back[i] == Canonical(r) <==> PathOf(r) == paths[i]
    {
      SameRecordIff(rs, tree, r, paths[i]);
    }
    forall i, j | 0 <= i < j < |back| ensures back[i] != back[j] {
      FoundOnTheWay(true, rs, tree, paths[i]);
      FoundOnTheWay(true, rs, tree, paths[j]);
      RecordsDiffer(paths[i], LeafAt(true, tree, paths[i]).value, paths[j], LeafAt(true, tree, paths[j]).value);
    }
    if FindsRecords(true, tree, rs) {
      FindsThenCameBack(rs, tree, paths, back);
    }
    if CameBack(rs, back) {
      CameBackThenFinds(rs, tree, paths, back);
    }
  }

  lemma FindsThenCameBack(rs: seq<Record>, tree: map<string, Value>, paths: seq<Path>, back: seq<Record>)
    requires ListsLeaves(tree, paths, back) && FindsRecords(true, tree, rs)
    requires forall i, r :: 0 <= i < |paths| && r in rs && ComesBack(r) ==>
                              (back[i] == Canonical(r) <==> PathOf(r) == paths[i])
    ensures forall r :: r in rs && ComesBack(r) ==> Canonical(r) in back
    ensures forall b :: b in back ==> exists r :: r in rs && ComesBack(r) && b == Canonical(r)
  {
    hide LeafAt, PathOf, LeafName, Blank, LeafOf, Canonical, RecordAt;
    forall r | r in rs && ComesBack(r) ensures Canonical(r) in back {
      assert LeafAt(true, tree, PathOf(r)).Some?;
      var i :| 0 <= i < |paths| && paths[i] == PathOf(r);
      assert back[i] == Canonical(r);
    }
    forall b | b in back ensures exists r :: r in rs && ComesBack(r) && b == Canonical(r) {
      var i :| 0 <= i < |back| && back[i] == b;
      assert paths[i] in paths;
      var r :| r in rs && ComesBack(r) && PathOf(r) == paths[i];
    }
  }

  lemma CameBackThenFinds(rs: seq<Record>, tree: map<string, Value>, paths: seq<Path>, back: seq<Record>)
    requires ListsLeaves(tree, paths, back) && CameBack(rs, back)
    requires forall i, r :: 0 <= i < |paths| && r in rs && ComesBack(r) ==>
                              (back[i] == Canonical(r) <==> PathOf(r) == paths[i])
    ensures FindsRecords(true, tree, rs)
  {
    hide LeafAt, PathOf, LeafName, Blank, LeafOf, Canonical, RecordAt;
    forall p
      ensures LeafAt(true, tree, p).Some? <==> Cachelink(rs, p)
    {
      if p in paths {
        var i :| 0 <= i < |paths| && paths[i] == p;
        assert back[i] in back;
        var r :| r in rs && ComesBack(r) && back[i] == Canonical(r);
      }
      if r :| r in rs && ComesBack(r) && PathOf(r) == p {
        var i :| 0 <= i < |back| && back[i] == Canonical(r);
        assert paths[i] in paths;
      }
    }
  }

  // ---- The walk in cachelinks.py ----

  class Loader {
    const parses: string -> bool
    var cachelinks: map<string, Descriptor>
    ghost var found: map<Path, Value>

    /** Each id stands for the last leaf found under that name. */
    ghost predicate Valid()
      reads this
    {
      && (forall p :: p in found ==> found[p].Dict? && Join('/', p) in cachelinks)
      && (forall id :: id in cachelinks ==>
            exists p :: p in found && Join('/', p) == id && cachelinks[id] == DescriptorAt(p, found[p]))
    }

    constructor (parses: string -> bool)
      ensures Valid() && found == map[] && cachelinks == map[] && this.parses == parses
    {
      this.parses, cachelinks, found := parses, map[], map[];
    }

    /** Raises on a URL that is no text or does not parse, and on a dictionary asked for its mode. */
    method AddDescriptor(p: Path, leaf: Value) returns (raised: bool)
      requires Valid() && p !in found && leaf.Dict?
      modifies this
      ensures raised <==> !Accepts(InCachelinks(parses), leaf)
      ensures !raised ==> Valid() && found == old(found)[p := leaf]
    {
      hide DescriptorAt, Join, Lower, Strip;
      if !HasTextUrl(leaf) || !parses(Strip(Item(leaf, "url"))) {
        return true;
      }
      if !KnownMode(Item(leaf, "mode")) && FullDict(leaf, "subfolder") {
        return true;
      }
      hide KnownMode, FullDict, HasTextUrl;
      var id := Join('/', p);
      cachelinks := cachelinks[id := DescriptorAt(p, leaf)];
      found := found[p := leaf];
      forall other | other in cachelinks && other != id
        ensures exists q :: q in found && Join('/', q) == other && cachelinks[other] == DescriptorAt(q, found[q])
      {
        var q :| q in old(found) && Join('/', q) == other && cachelinks[other] == DescriptorAt(q, old(found)[q]);
        assert q in found && found[q] == old(found)[q];
      }
      assert p in found;
      return false;
    }

    /** The recursive walk, filling one shared dictionary; it ends at once when something raises. */
    method WalkTree(m: map<string, Value>, prefix: Path) returns (raised: bool)
      requires Valid() && NothingBelow(found, prefix)
      modifies this
      ensures raised <==> Raises(InCachelinks(parses), m, prefix, m.Keys)
      ensures !raised ==> Valid() && Writes(old(found), found, false, m, prefix, m.Keys)
      decreases Dict(m)
    {
      hide Valid, IsLeaf, LeafAt, Hit, Accepts;
      var keys := m.Keys;
      raised := false;
      NothingRaisesYet(InCachelinks(parses), m, prefix);
      NothingWrittenYet(found, false, m, prefix);
      while keys != {}
        invariant keys <= m.Keys && Valid()
        invariant !Raises(InCachelinks(parses), m, prefix, m.Keys - keys)
        invariant Writes(old(found), found, false, m, prefix, m.Keys - keys)
        decreases keys
      {
        var k :| k in keys;
        var v := m[k];
        ghost var before, done := found, m.Keys - keys;
        NothingBelowYet(old(found), found, false, m, prefix, done, k);
        RaisesAt(InCachelinks(parses), m, prefix, k);
        RaisesMore(InCachelinks(parses), m, prefix, done, k);
        if v.Dict? && IsLeaf(false, v) {
          raised := AddDescriptor(prefix + [k], v);
        } else if v.Dict? {
          raised := WalkTree(v.items, prefix + [k]);
        }
        if raised {
          RaisesAnyway(InCachelinks(parses), m, prefix, done + {k});
          return;
        }
        WalkStep(old(found), before, found, false, m, prefix, done, k);
        assert m.Keys - (keys - {k}) == done + {k};
        keys := keys - {k};
      }
      assert m.Keys - {} == m.Keys;
    }
  }

  /** The index holds one descriptor for each record with a name and a URL. */
  ghost predicate Indexes(index: map<string, Descriptor>, rs: seq<Record>) {
    && (forall r :: r in rs && ComesBack(r) ==>
          Join('/', PathOf(r)) in index && index[Join('/', PathOf(r))] == DescriptorOf(r))
    && (forall id :: id in index ==> exists r :: r in rs && ComesBack(r) && id == Join('/', PathOf(r)))
  }

  /** The record keeps the catalogue from being loaded. */
  predicate Spoils(parses: string -> bool, r: Record) {
    !Ordinary(r) || (ComesBack(r) && !parses(Strip(r.url)))
  }

  /** Loading a built catalogue raises iff one of the surviving records has a step called "url" below its
      first, with or without a URL of its own, or a URL that does not parse. One such record keeps all the
      others from being loaded. */
  method Load(parses: string -> bool, rs: seq<Record>) returns (index: Option<map<string, Descriptor>>)
    requires NothingBelowCachelinks(Survivors(rs))
    ensures index.None? <==> exists r :: r in Survivors(rs) && Spoils(parses, r)
    ensures index.Some? ==> Indexes(index.value, Survivors(rs))
  {
    hide Mistaken, Spoils, Indexes, LeafAt, Shape, NothingBelowCachelinks, Survivors, Raises, Writes;
    var tree := Build(rs);
    var loader := new Loader(parses);
    var raised := loader.WalkTree(tree, []);
    ghost var kept := Survivors(rs);
    BuildKeepsSurvivors(map[], rs);
    SurvivorsInOrder(rs);
    BuildShape(kept);
    SpoilsIffRaises(parses, tree, kept);
    if raised {
      return None;
    }
    LooseMistakeIff(kept);
    FindsRecordsIff(false, tree, kept);
    WalkFindsLeaves(false, tree, loader.found);
    IndexOfFound(tree, kept, loader.found, loader.cachelinks);
    return Some(loader.cachelinks);
  }

  lemma SpoilsIffRaises(parses: string -> bool, m: map<string, Value>, rs: seq<Record>)
    requires Shape(m, rs) && NothingBelowCachelinks(rs)
    ensures Raises(InCachelinks(parses), m, [], m.Keys) <==> exists r :: r in rs && Spoils(parses, r)
    ensures !Raises(InCachelinks(parses), m, [], m.Keys) ==> forall r :: r in rs ==> Ordinary(r)
  {
    var reader := InCachelinks(parses);
    LooseMistakeIff(rs);
    forall r ensures Accepts(reader, LeafOf(r)) <==> parses(Strip(r.url)) {
      RecordAccepted(reader, r);
    }
    hide LeafAt, PathOf, LeafName, LeafOf, Blank, Accepts, Raises, Shape, Mistaken, Ordinary;
    if q :| Mistaken(false, rs, q) {
      var top := TopmostMistake(false, m, rs, q);
      FoundIff(false, m, rs, top);
      NoTextNotAccepted(parses, LeafAt(false, m, top).value);
      assert Obstacle(reader, m, top);
      RaisesIffFound(reader, m);
    } else {
      RecordsRaise(reader, m, rs);
    }
  }

  lemma NoTextNotAccepted(parses: string -> bool, leaf: Value)
    requires !HasTextUrl(leaf)
    ensures !Accepts(InCachelinks(parses), leaf)
  {
  }

  lemma IndexOfFound(tree: map<string, Value>, rs: seq<Record>, found: map<Path, Value>,
                     index: map<string, Descriptor>)
    requires Shape(tree, rs) && NothingBelowCachelinks(rs) && FindsRecords(false, tree, rs)
    requires forall p :: (p in found <==> LeafAt(false, tree, p).Some?)
                         && (p in found ==> found[p] == LeafAt(false, tree, p).value)
    requires forall p :: p in found ==> found[p].Dict? && Join('/', p) in index
    requires forall id :: id in index ==>
               exists p :: p in found && Join('/', p) == id && index[id] == DescriptorAt(p, found[p])
    ensures Indexes(index, rs)
  {
    hide LeafAt, PathOf, LeafName, LeafOf, Blank, DescriptorAt, Join, Shape, NothingBelowCachelinks;
    forall p | p in found
      ensures Cachelink(rs, p)
      ensures forall r :: r in rs && ComesBack(r) && PathOf(r) == p ==> found[p] == LeafOf(r)
    {
      FoundIff(false, tree, rs, p);
    }
    forall r | r in rs && ComesBack(r)
      ensures Join('/', PathOf(r)) in index && index[Join('/', PathOf(r))] == DescriptorOf(r)
    {
      var id := Join('/', PathOf(r));
      assert Cachelink(rs, PathOf(r)) && PathOf(r) in found;
      var p :| p in found && Join('/', p) == id && index[id] == DescriptorAt(p, found[p]);
      var s :| s in rs && ComesBack(s) && PathOf(s) == p;
      PathFree(r);
      PathFree(s);
      SameIdSamePath(PathOf(r), p);
    }
  }

  /** Saving the catalogue and loading it again gives the descriptors that loading it at once gives. */
  lemma SavedLoadsTheSame(r: Record)
    requires HasName(r)
    ensures DescriptorOf(Canonical(r)) == DescriptorOf(r)
  {
    CanonicalIsStable(r);
  }
}
