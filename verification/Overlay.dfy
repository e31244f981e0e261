/** The WebDAV overlay: a local tree, a set of mounts and flat index listings shown as one tree. */
module Overlay {
  import opened Wrappers
  import opened Text
  import opened Paths

  datatype IndexedEntry = IndexedEntry(path: string, isDir: bool)

  /** A cachelink with the listing stored for it. */
  datatype Descriptor = Descriptor(id: string, segments: seq<string>, entries: seq<IndexedEntry>)

  /** One share as one user sees it. `local` maps each existing local path to whether it is a directory. */
  datatype Site = Site(base: Path, readable: bool, overlay: bool,
                       descriptors: seq<Descriptor>, local: map<Path, bool>)

  datatype Resource =
    | LocalDirectory(at: Path)
    | LocalFile(at: Path)
    | OverlayDirectory(at: Path, mount: Option<Descriptor>, sub: Path)
    | OverlayFile(at: Path, owner: Descriptor, entry: IndexedEntry)
  {
    predicate IsDirectory() {
      LocalDirectory? || OverlayDirectory?
    }
  }

  function MountPath(d: Descriptor): Path {
    Parts(Join('/', d.segments))
  }

  function EntryPath(e: IndexedEntry): Path {
    Parts(e.path)
  }

  // ---- The four loops of the provider ----

  /** `_cachelinks_for_share` */
  function InShare(base: Path, ds: seq<Descriptor>): seq<Descriptor> {
    if ds == [] then []
    else (if base <= MountPath(ds[0]) then [ds[0]] else []) + InShare(base, ds[1..])
  }

  lemma {:induction false} InShareMembers(base: Path, ds: seq<Descriptor>, d: Descriptor)
    ensures d in InShare(base, ds) <==> d in ds && base <= MountPath(d)
  {
    if ds != [] {
      InShareMembers(base, ds[1..], d);
      assert ds == [ds[0]] + ds[1..];
    }
  }

  /** No mount covers `p`, or `best` is a longest one that does. */
  predicate IsBest(ds: seq<Descriptor>, p: Path, best: Option<Descriptor>) {
    match best
    case None => forall d :: d in ds ==> !(MountPath(d) <= p)
    case Some(b) =>
      && b in ds && MountPath(b) <= p
      && forall d :: d in ds && MountPath(d) <= p ==> |MountPath(d)| <= |MountPath(b)|
  }

  function Best(ds: seq<Descriptor>, p: Path): (best: Option<Descriptor>)
    ensures IsBest(ds, p, best)
  {
    if ds == [] then None
    else
      var n := |ds| - 1;
      var best := Best(ds[..n], p);
      assert ds == ds[..n] + [ds[n]];
      if MountPath(ds[n]) <= p && (best.None? || |MountPath(ds[n])| > |MountPath(best.value)|)
      then Some(ds[n]) else best
  }

  method FindCachelink(ds: seq<Descriptor>, p: Path) returns (best: Option<Descriptor>, rest: Path)
    ensures best == Best(ds, p)
    ensures best.Some? ==> p == MountPath(best.value) + rest
  {
    hide MountPath;
    best := None;
    var bestLen := -1;
    for i := 0 to |ds|
      invariant best == Best(ds[..i], p)
      invariant bestLen == if best.None? then -1 else |MountPath(best.value)|
    {
      assert ds[..i + 1][..i] == ds[..i];
      if MountPath(ds[i]) <= p && |MountPath(ds[i])| > bestLen {
        best := Some(ds[i]);
        bestLen := |MountPath(ds[i])|;
      }
    }
    assert ds[..|ds|] == ds;
    rest := if best.None? then [] else p[|MountPath(best.value)|..];
  }

  /** `_has_cachelink_children` */
  predicate HasMountBelow(ds: seq<Descriptor>, p: Path) {
    exists d :: d in ds && p < MountPath(d)
  }

  function FirstExact(entries: seq<IndexedEntry>, sub: Path): (found: Option<IndexedEntry>)
    ensures found.Some? ==> found.value in entries && EntryPath(found.value) == sub
    ensures found.None? ==> forall e :: e in entries ==> EntryPath(e) != sub
  {
    if entries == [] then None
    else if EntryPath(entries[0]) == sub then Some(entries[0])
    else FirstExact(entries[1..], sub)
  }

  predicate HasBelow(entries: seq<IndexedEntry>, sub: Path) {
    exists e :: e in entries && sub <= EntryPath(e)
  }

  /** What `_lookup_cachelink_entry` answers: the first entry at `sub`, or whether anything lies below. */
  function Lookup(entries: seq<IndexedEntry>, sub: Path): (Option<IndexedEntry>, bool) {
    var found := FirstExact(entries, sub);
    if found.Some? then (found, found.value.isDir) else (None, HasBelow(entries, sub))
  }

  method LookupEntry(entries: seq<IndexedEntry>, sub: Path) returns (found: Option<IndexedEntry>, isDir: bool)
    ensures (found, isDir) == Lookup(entries, sub)
  {
    hide EntryPath;
    var hasChild := false;
    var i := 0;
    while i < |entries|
      invariant 0 <= i <= |entries|
      invariant hasChild == HasBelow(entries[..i], sub)
      invariant FirstExact(entries, sub) == FirstExact(entries[i..], sub)
      invariant forall e :: e in entries[..i] ==> EntryPath(e) != sub
    {
      var at := EntryPath(entries[i]);
      if at == sub {
        return Some(entries[i]), entries[i].isDir;
      }
      if sub <= at {
        hasChild := true;
      }
      assert entries[i..][1..] == entries[i + 1..];
      assert entries[..i + 1] == entries[..i] + [entries[i]];
      i := i + 1;
    }
    assert entries[..i] == entries;
    return None, hasChild;
  }

  /** The names one level below `sub`. */
  function ChildNames(entries: seq<IndexedEntry>, sub: Path): set<string> {
    set e | e in entries && sub < EntryPath(e) :: EntryPath(e)[|sub|]
  }

  /** Some entry makes the child `name` a directory: a directory entry at it, or anything below it. */
  predicate ChildIsDir(entries: seq<IndexedEntry>, sub: Path, name: string) {
    exists e :: e in entries && sub + [name] <= EntryPath(e) && (e.isDir || |EntryPath(e)| > |sub| + 1)
  }

  ghost predicate Tabulates(children: map<string, bool>, entries: seq<IndexedEntry>, sub: Path) {
    && children.Keys == ChildNames(entries, sub)
    && forall name :: name in children ==> children[name] == ChildIsDir(entries, sub, name)
  }

  /** `_cachelink_children` */
  method CachelinkChildren(entries: seq<IndexedEntry>, sub: Path) returns (children: map<string, bool>)
    ensures Tabulates(children, entries, sub)
  {
    hide EntryPath;
    children := map[];
    for i := 0 to |entries|
      invariant Tabulates(children, entries[..i], sub)
    {
      var at := EntryPath(entries[i]);
      ghost var before := children;
      if sub < at {
        var name := at[|sub|];
        var isDir := entries[i].isDir || |at| - |sub| > 1;
        children := children[name := (name in children && children[name]) || isDir];
      }
      ChildStep(entries[..i], entries[i], sub, before, children);
      assert entries[..i + 1] == entries[..i] + [entries[i]];
    }
    assert entries[..|entries|] == entries;
  }

  /** A name is listed below `sub` iff something lies at or below it. */
  lemma ChildIffBelow(entries: seq<IndexedEntry>, sub: Path, name: string)
    ensures name in ChildNames(entries, sub) <==> HasBelow(entries, sub + [name])
  {
  }

  lemma BelowMeansNextSegment(sub: Path, name: string, p: Path)
    ensures sub + [name] <= p <==> sub < p && p[|sub|] == name
  {
  }

  lemma ChildStep(entries: seq<IndexedEntry>, e: IndexedEntry, sub: Path,
                  before: map<string, bool>, after: map<string, bool>)
    requires Tabulates(before, entries, sub)
    requires var at := EntryPath(e);
             after == if sub < at then
                        before[at[|sub|] :=
                          (at[|sub|] in before && before[at[|sub|]]) || e.isDir || |at| - |sub| > 1]
                      else before
    ensures Tabulates(after, entries + [e], sub)
  {
    var more := entries + [e];
    forall name
      ensures name in ChildNames(more, sub) <==> name in after
      ensures name in after ==> after[name] == ChildIsDir(more, sub, name)
    {
      BelowMeansNextSegment(sub, name, EntryPath(e));
      ChildIffBelow(entries, sub, name);
      ChildIffBelow(more, sub, name);
      OneMore(entries, e, sub, name);
    }
  }

  lemma OneMore(entries: seq<IndexedEntry>, e: IndexedEntry, sub: Path, name: string)
    ensures HasBelow(entries + [e], sub + [name]) <==>
              HasBelow(entries, sub + [name]) || sub + [name] <= EntryPath(e)
    ensures ChildIsDir(entries + [e], sub, name) <==>
              || ChildIsDir(entries, sub, name)
              || (sub + [name] <= EntryPath(e) && (e.isDir || |EntryPath(e)| > |sub| + 1))
    ensures ChildIsDir(entries, sub, name) ==> HasBelow(entries, sub + [name])
  {
  }

  /** What one mount adds to the directory at `p`: the next step towards the mount when it lies below,
      the children in its listing when the listing reaches `p`. */
  function NamesFrom(d: Descriptor, p: Path): set<string> {
    var mount := MountPath(d);
    if p < mount then {mount[|p|]}
    else if mount <= p then ChildNames(d.entries, p[|mount|..])
    else {}
  }

  function OverlayNames(ds: seq<Descriptor>, p: Path): set<string> {
    set d, n | d in ds && n in NamesFrom(d, p) :: n
  }

  function FullPaths(root: Path, rel: Path, names: set<string>): set<string> {
    set n | n in names :: FrontendPath(root, rel, n)
  }

  lemma FullPathsOfUnion(root: Path, rel: Path, a: set<string>, b: set<string>)
    ensures FullPaths(root, rel, a + b) == FullPaths(root, rel, a) + FullPaths(root, rel, b)
  {
  }

  lemma OneMoreDescriptor(ds: seq<Descriptor>, d: Descriptor, p: Path)
    ensures OverlayNames(ds + [d], p) == OverlayNames(ds, p) + NamesFrom(d, p)
  {
  }

  method FullPathsFrom(root: Path, rel: Path, d: Descriptor, p: Path) returns (members: set<string>)
    ensures members == FullPaths(root, rel, NamesFrom(d, p))
  {
    members := {};
    var mount := MountPath(d);
    if p <= mount {
      var remainder := mount[|p|..];
      if remainder != [] {
        members := members + {FrontendPath(root, rel, remainder[0])};
      }
    }
    if mount <= p {
      var children := CachelinkChildren(d.entries, p[|mount|..]);
      members := members + set n | n in children.Keys :: FrontendPath(root, rel, n);
    }
  }

  /** `_cachelink_members` */
  method CachelinkMembers(root: Path, rel: Path, ds: seq<Descriptor>, p: Path) returns (members: set<string>)
    ensures members == FullPaths(root, rel, OverlayNames(ds, p))
  {
    members := {};
    for i := 0 to |ds|
      invariant members == FullPaths(root, rel, OverlayNames(ds[..i], p))
    {
      var more := FullPathsFrom(root, rel, ds[i], p);
      OneMoreDescriptor(ds[..i], ds[i], p);
      assert ds[..i + 1] == ds[..i] + [ds[i]];
      FullPathsOfUnion(root, rel, OverlayNames(ds[..i], p), NamesFrom(ds[i], p));
      members := members + more;
    }
    assert ds[..|ds|] == ds;
  }

  // ---- Resolving and listing ----

  function GetResource(site: Site, rel: Path): Option<Resource> {
    if ".." in rel || !site.readable then None
    else
      var at := site.base + rel;
      if at in site.local then Some(if site.local[at] then LocalDirectory(at) else LocalFile(at))
      else if !site.overlay then None
      else
        var ds := InShare(site.base, site.descriptors);
        var best := Best(ds, at);
        if best.None? then
          if HasMountBelow(ds, at) then Some(OverlayDirectory(at, None, [])) else None
        else
          var d := best.value;
          var sub := at[|MountPath(d)|..];
          if sub == [] then Some(OverlayDirectory(at, best, []))
          else
            var (entry, isDir) := Lookup(d.entries, sub);
            if isDir then Some(OverlayDirectory(at, best, sub))
            else if entry.Some? then Some(OverlayFile(at, d, entry.value))
            else None
  }

  function LocalNames(local: map<Path, bool>, at: Path): set<string> {
    if at in local && local[at] then set p | p in local && |p| == |at| + 1 && at < p :: p[|at|] else {}
  }

  /** What a directory's listing takes from the overlay. */
  function OverlayPart(site: Site, dir: Resource): set<string> {
    if !site.overlay then {}
    else if dir.OverlayDirectory? && dir.mount.Some? then ChildNames(dir.mount.value.entries, dir.sub)
    else OverlayNames(InShare(site.base, site.descriptors), dir.at)
  }

  /** `get_member_names` of both directory resources. */
  function MemberNames(site: Site, dir: Resource): set<string> {
    LocalNames(site.local, dir.at) + OverlayPart(site, dir)
  }

  /** The first entry of a listing that stands at `sub`. */
  ghost predicate FirstAt(entries: seq<IndexedEntry>, sub: Path, e: IndexedEntry) {
    exists i :: 0 <= i < |entries| && entries[i] == e && EntryPath(e) == sub
                && forall j :: 0 <= j < i ==> EntryPath(entries[j]) != sub
  }

  /** `get_resource_inst` for a reading request, by the loops above. */
  method Resolve(site: Site, rel: Path) returns (resource: Option<Resource>)
    ensures resource == GetResource(site, rel)
    ensures !site.readable || ".." in rel ==> resource == None
    ensures site.readable && ".." !in rel && site.base + rel in site.local ==>
              resource == Some(if site.local[site.base + rel] then LocalDirectory(site.base + rel)
                               else LocalFile(site.base + rel))
    ensures site.base + rel !in site.local && !site.overlay ==> resource == None
  {
    if ".." in rel || !site.readable {
      return None;
    }
    var at := site.base + rel;
    if at in site.local {
      return Some(if site.local[at] then LocalDirectory(at) else LocalFile(at));
    }
    if !site.overlay {
      return None;
    }
    var ds := InShare(site.base, site.descriptors);
    var best, sub := FindCachelink(ds, at);
    if best.None? {
      return if HasMountBelow(ds, at) then Some(OverlayDirectory(at, None, [])) else None;
    }
    assert sub == at[|MountPath(best.value)|..];
    if sub == [] {
      return Some(OverlayDirectory(at, best, []));
    }
    var entry, isDir := LookupEntry(best.value.entries, sub);
    if isDir {
      return Some(OverlayDirectory(at, best, sub));
    }
    return if entry.Some? then Some(OverlayFile(at, best.value, entry.value)) else None;
  }

  lemma OverlayNamesClean(ds: seq<Descriptor>, p: Path, name: string)
    requires name in OverlayNames(ds, p)
    ensures CleanPath([name])
  {
    var d :| d in ds && name in NamesFrom(d, p);
    if p < MountPath(d) {
      PartsClean(Join('/', d.segments));
      assert name in MountPath(d);
    } else {
      var sub := p[|MountPath(d)|..];
      var e :| e in d.entries && sub < EntryPath(e) && EntryPath(e)[|sub|] == name;
      PartsClean(e.path);
      assert name in EntryPath(e);
    }
  }

  /** Both `get_member_names`; without a mount of its own a directory gets its overlay names back out
      of full paths. */
  method ListNames(site: Site, root: Path, rel: Path, dir: Resource) returns (names: set<string>)
    requires CleanPath(root + rel)
    ensures names == MemberNames(site, dir)
  {
    names := LocalNames(site.local, dir.at);
    if site.overlay {
      if dir.OverlayDirectory? && dir.mount.Some? {
        var children := CachelinkChildren(dir.mount.value.entries, dir.sub);
        names := names + children.Keys;
      } else {
        var ds := InShare(site.base, site.descriptors);
        var fulls := CachelinkMembers(root, rel, ds, dir.at);
        LastSegmentsOfFullPaths(root, rel, ds, dir.at);
        names := names + set full | full in fulls :: LastSegment(full);
      }
    }
  }

  lemma LastSegmentsOfFullPaths(root: Path, rel: Path, ds: seq<Descriptor>, p: Path)
    requires CleanPath(root + rel)
    ensures (set full | full in FullPaths(root, rel, OverlayNames(ds, p)) :: LastSegment(full))
            == OverlayNames(ds, p)
  {
    var names := OverlayNames(ds, p);
    forall n | n in names ensures LastSegment(FrontendPath(root, rel, n)) == n {
      OverlayNamesClean(ds, p, n);
      assert n in [n];
      NameSurvivesFrontendPath(root, rel, n);
    }
    var lasts := set full | full in FullPaths(root, rel, names) :: LastSegment(full);
    forall n | n in names ensures n in lasts {
      assert FrontendPath(root, rel, n) in FullPaths(root, rel, names);
    }
    assert forall n :: n in lasts ==> n in names;
  }

  // ---- What a path that is not local comes to ----

  /** The mounts of a share keep the order of the catalogue. */
  lemma {:induction false} InShareAppend(base: Path, ds: seq<Descriptor>, d: Descriptor)
    ensures InShare(base, ds + [d]) == InShare(base, ds) + if base <= MountPath(d) then [d] else []
  {
    hide MountPath;
    if ds == [] {
      assert [] + [d] == [d] && [d][1..] == [];
    } else {
      assert (ds + [d])[0] == ds[0] && (ds + [d])[1..] == ds[1..] + [d];
      InShareAppend(base, ds[1..], d);
    }
  }

  /** Of the longest mounts above a path, the first one is taken. */
  lemma {:induction false} BestIsFirst(ds: seq<Descriptor>, p: Path) returns (i: nat)
    requires Best(ds, p).Some?
    ensures i < |ds| && Best(ds, p) == Some(ds[i]) && MountPath(ds[i]) <= p
    ensures forall j :: 0 <= j < |ds| && MountPath(ds[j]) <= p ==>
              |MountPath(ds[j])| < |MountPath(ds[i])| || (|MountPath(ds[j])| == |MountPath(ds[i])| && i <= j)
  {
    hide MountPath;
    var n := |ds| - 1;
    var before := Best(ds[..n], p);
    if MountPath(ds[n]) <= p && (before.None? || |MountPath(ds[n])| > |MountPath(before.value)|) {
      i := n;
      if before.Some? {
        var k := BestIsFirst(ds[..n], p);
      }
    } else {
      i := BestIsFirst(ds[..n], p);
    }
  }

  lemma FirstExactIsFirst(entries: seq<IndexedEntry>, sub: Path)
    ensures FirstExact(entries, sub).Some? ==> FirstAt(entries, sub, FirstExact(entries, sub).value)
  {
    hide EntryPath;
    if entries != [] && EntryPath(entries[0]) != sub && FirstExact(entries, sub).Some? {
      FirstExactIsFirst(entries[1..], sub);
      var i :| 0 <= i < |entries[1..]| && entries[1..][i] == FirstExact(entries, sub).value
               && EntryPath(entries[1..][i]) == sub && forall j :: 0 <= j < i ==> EntryPath(entries[1..][j]) != sub;
      assert entries[i + 1] == entries[1..][i];
      assert forall j :: 0 < j < i + 1 ==> entries[j] == entries[1..][j - 1];
    }
  }

  /** Above every mount: a directory iff some mount lies below. Otherwise the longest mount decides: its own
      directory at the mount itself, and below it the first entry at the rest of the path, or else a
      directory iff some entry lies below. */
  lemma OverlayAnswers(site: Site, rel: Path)
    requires site.readable && ".." !in rel && site.base + rel !in site.local && site.overlay
    ensures var ds, at, r := InShare(site.base, site.descriptors), site.base + rel, GetResource(site, rel);
            && ((forall d :: d in ds ==> !(MountPath(d) <= at)) ==>
                  && (r.Some? <==> exists d :: d in ds && at < MountPath(d))
                  && (r.Some? ==> r.value == OverlayDirectory(at, None, [])))
            && (Best(ds, at).Some? ==> MountAnswers(Best(ds, at).value, at, r))
  {
    var ds, at := InShare(site.base, site.descriptors), site.base + rel;
    if Best(ds, at).Some? {
      var d := Best(ds, at).value;
      FirstExactIsFirst(d.entries, at[|MountPath(d)|..]);
    }
  }

  ghost predicate MountAnswers(d: Descriptor, at: Path, r: Option<Resource>) {
    MountPath(d) <= at &&
    var sub := at[|MountPath(d)|..];
    if sub == [] then r == Some(OverlayDirectory(at, Some(d), []))
    else if forall e :: e in d.entries ==> EntryPath(e) != sub then
      && (r.Some? <==> exists e :: e in d.entries && sub < EntryPath(e))
      && (r.Some? ==> r.value == OverlayDirectory(at, Some(d), sub))
    else
      exists e :: && FirstAt(d.entries, sub, e)
                  && r == Some(if e.isDir then OverlayDirectory(at, Some(d), sub) else OverlayFile(at, d, e))
  }

  /** Below a local file nothing resolves but what the overlay puts there. */
  lemma BelowLocalFile(site: Site, rel: Path, more: Path)
    requires LocalTree(site.local) && more != [] && ".." !in rel + more
    requires GetResource(site, rel) == Some(LocalFile(site.base + rel))
    ensures site.base + (rel + more) !in site.local
    ensures GetResource(site, rel + more).Some? ==>
              && site.overlay
              && exists d :: && d in InShare(site.base, site.descriptors)
                             && (MountPath(d) <= site.base + (rel + more) || site.base + (rel + more) < MountPath(d))
  {
    var at := site.base + (rel + more);
    assert at[..|site.base + rel|] == site.base + rel;
    if at in site.local {
      LocalAncestors(site.local, at, |site.base + rel|);
    }
    assert IsBest(InShare(site.base, site.descriptors), at, Best(InShare(site.base, site.descriptors), at));
  }

  // ---- Listing and resolution agree ----

  function Parent(p: Path): Path {
    if p == [] then [] else p[..|p| - 1]
  }

  /** Local paths form a tree: the parent of every local path is a local directory. */
  ghost predicate LocalTree(local: map<Path, bool>) {
    forall p {:trigger Parent(p)} :: p in local && p != [] ==> Parent(p) in local && local[Parent(p)]
  }

  /** No mount of the share lies at or under another one. */
  ghost predicate MountsApart(ds: seq<Descriptor>) {
    forall d, d' :: d in ds && d' in ds && MountPath(d) <= MountPath(d') ==> d == d'
  }

  /** Listing and lookup below one mount: a name is listed iff looking it up answers something. */
  lemma ListedIffFound(entries: seq<IndexedEntry>, sub: Path, name: string)
    ensures name in ChildNames(entries, sub) <==> Lookup(entries, sub + [name]) != (None, false)
  {
    hide EntryPath;
    ChildIffBelow(entries, sub, name);
    hide ChildNames;
    var found := FirstExact(entries, sub + [name]);
    if found.Some? {
      assert sub + [name] <= EntryPath(found.value);
    }
  }

  /** The two directory flags of a listed name agree, unless the first entry at it is a file while
      another entry makes it a directory. */
  lemma FlagsAgree(entries: seq<IndexedEntry>, sub: Path, name: string)
    requires name in ChildNames(entries, sub)
    ensures var p := sub + [name];
            var clash := && FirstExact(entries, p).Some? && !FirstExact(entries, p).value.isDir
                         && exists e :: e in entries && p <= EntryPath(e) && (e.isDir || p < EntryPath(e));
            Lookup(entries, p).1 == ChildIsDir(entries, sub, name) <==> !clash
  {
  }

  lemma OnlyMountAbove(ds: seq<Descriptor>, d: Descriptor, p: Path)
    requires MountsApart(ds) && d in ds && MountPath(d) <= p
    ensures Best(ds, p) == Some(d)
  {
  }

  lemma NoMountAboveAMount(ds: seq<Descriptor>, d: Descriptor, p: Path)
    requires MountsApart(ds) && d in ds && p < MountPath(d)
    ensures Best(ds, p) == None
  {
  }

  lemma NextSegment(p: Path, name: string, q: Path)
    ensures p < q && q[|p|] == name <==> p + [name] <= q
    ensures p + [name] <= q ==> p + [name] == q || p + [name] < q
  {
  }

  /** What the overlay alone makes of the path `at`. */
  predicate OverlayHas(ds: seq<Descriptor>, at: Path) {
    var best := Best(ds, at);
    if best.None? then HasMountBelow(ds, at)
    else
      var sub := at[|MountPath(best.value)|..];
      sub == [] || Lookup(best.value.entries, sub) != (None, false)
  }

  lemma ResolvesWithoutLocal(site: Site, rel: Path)
    requires ".." !in rel && site.readable && site.base + rel !in site.local
    ensures GetResource(site, rel).Some? <==>
              site.overlay && OverlayHas(InShare(site.base, site.descriptors), site.base + rel)
  {
  }

  lemma LocalNameIffLocal(local: map<Path, bool>, at: Path, name: string)
    requires LocalTree(local)
    ensures name in LocalNames(local, at) <==> at + [name] in local
  {
    if at + [name] in local {
      assert at < at + [name] && Parent(at + [name]) == at;
    }
    forall p | p in local && |p| == |at| + 1 && at < p ensures p == at + [p[|at|]] {
    }
  }

  lemma ResolvesBelow(site: Site, rel: Path, name: string)
    requires ".." !in rel && name != ".." && site.readable
    ensures GetResource(site, rel + [name]).Some? <==>
              || site.base + rel + [name] in site.local
              || (&& site.overlay
                  && OverlayHas(InShare(site.base, site.descriptors), site.base + rel + [name]))
  {
    assert site.base + (rel + [name]) == site.base + rel + [name];
    if site.base + rel + [name] !in site.local {
      ResolvesWithoutLocal(site, rel + [name]);
    }
  }

  lemma ResourceAt(site: Site, rel: Path)
    requires GetResource(site, rel).Some?
    ensures GetResource(site, rel).value.at == site.base + rel && ".." !in rel && site.readable
  {
  }

  predicate MountAt(ds: seq<Descriptor>, at: Path) {
    exists m :: m in ds && MountPath(m) == at
  }

  /** Some mount of the list puts `name` into a listing of `at` without lying at `at + [name]` itself. */
  predicate MountOffers(ds: seq<Descriptor>, at: Path, name: string) {
    exists m :: && m in ds
                && (at + [name] < MountPath(m)
                    || (MountPath(m) <= at && name in ChildNames(m.entries, at[|MountPath(m)|..])))
  }

  /** Where listing and resolution part company. A directory with a listing of its own leaves out a
      mount one step down that this listing does not name. A local directory inside a mount lists what
      any mount offers, but resolves only what the longest one holds. */
  predicate Misled(site: Site, dir: Resource, name: string) {
    var ds := InShare(site.base, site.descriptors);
    && site.overlay
    && if dir.OverlayDirectory? && dir.mount.Some? then
         name !in ChildNames(dir.mount.value.entries, dir.sub) && MountAt(ds, dir.at + [name])
       else
         && dir.at + [name] !in site.local && !MountAt(ds, dir.at + [name])
         && Best(ds, dir.at).Some?
         && name !in ChildNames(Best(ds, dir.at).value.entries, dir.at[|MountPath(Best(ds, dir.at).value)|..])
         && MountOffers(ds, dir.at, name)
  }

  lemma {:induction false} BestOneStepDown(ds: seq<Descriptor>, at: Path, name: string)
    requires !MountAt(ds, at + [name])
    ensures Best(ds, at + [name]) == Best(ds, at)
  {
    hide MountPath;
    if ds != [] {
      var n := |ds| - 1;
      assert ds == ds[..n] + [ds[n]];
      assert forall m :: m in ds[..n] ==> m in ds;
      BestOneStepDown(ds[..n], at, name);
      NotAtTheStep(ds, n, at, name);
    }
  }

  lemma NotAtTheStep(ds: seq<Descriptor>, n: nat, at: Path, name: string)
    requires n < |ds| && !MountAt(ds, at + [name])
    ensures MountPath(ds[n]) <= at + [name] <==> MountPath(ds[n]) <= at
  {
  }

  lemma HasAtMount(ds: seq<Descriptor>, at: Path)
    requires MountAt(ds, at)
    ensures OverlayHas(ds, at)
  {
  }

  /** What the overlay has one step below `at`. */
  lemma HasOneStepDown(ds: seq<Descriptor>, at: Path, name: string)
    ensures OverlayHas(ds, at + [name]) <==>
              || MountAt(ds, at + [name])
              || (if Best(ds, at).None? then HasMountBelow(ds, at + [name])
                  else name in ChildNames(Best(ds, at).value.entries, at[|MountPath(Best(ds, at).value)|..]))
  {
    hide MountPath, EntryPath, Lookup, ChildNames;
    if MountAt(ds, at + [name]) {
      HasAtMount(ds, at + [name]);
    } else {
      BestOneStepDown(ds, at, name);
      var best := Best(ds, at);
      if best.Some? {
        assert IsBest(ds, at, best);
        var sub := at[|MountPath(best.value)|..];
        assert (at + [name])[|MountPath(best.value)|..] == sub + [name];
        ListedIffFound(best.value.entries, sub, name);
      }
    }
  }

  lemma NamesFromIff(m: Descriptor, at: Path, name: string)
    ensures name in NamesFrom(m, at) <==>
              || at + [name] == MountPath(m) || at + [name] < MountPath(m)
              || (MountPath(m) <= at && name in ChildNames(m.entries, at[|MountPath(m)|..]))
  {
    hide MountPath, ChildNames;
    NextSegment(at, name, MountPath(m));
  }

  /** What the overlay lists in a directory without a listing of its own. */
  lemma OverlayNamesIff(ds: seq<Descriptor>, at: Path, name: string)
    ensures name in OverlayNames(ds, at) <==> MountAt(ds, at + [name]) || MountOffers(ds, at, name)
  {
    hide MountPath, ChildNames, NamesFrom;
    forall m | m in ds
      ensures name in NamesFrom(m, at) <==>
                || at + [name] == MountPath(m) || at + [name] < MountPath(m)
                || (MountPath(m) <= at && name in ChildNames(m.entries, at[|MountPath(m)|..]))
    {
      NamesFromIff(m, at, name);
    }
  }

  /** Without a mount above `at`, mounts below are all that can be offered. */
  lemma OffersWithoutMount(ds: seq<Descriptor>, at: Path, name: string)
    requires Best(ds, at).None?
    ensures MountOffers(ds, at, name) <==> HasMountBelow(ds, at + [name])
  {
  }

  lemma OffersOfBest(ds: seq<Descriptor>, at: Path, name: string)
    requires Best(ds, at).Some?
    requires name in ChildNames(Best(ds, at).value.entries, at[|MountPath(Best(ds, at).value)|..])
    ensures MountOffers(ds, at, name)
  {
  }

  /** For any mounts at all, nested or not: in every directory, listing and resolution agree on a name
      iff it is not one of those. */
  lemma AgreeUnlessMisled(site: Site, rel: Path, name: string)
    requires LocalTree(site.local)
    requires GetResource(site, rel).Some? && GetResource(site, rel).value.IsDirectory()
    requires name != ".."
    ensures (name in MemberNames(site, GetResource(site, rel).value) <==> GetResource(site, rel + [name]).Some?)
            <==> !Misled(site, GetResource(site, rel).value, name)
  {
    var dir, ds := GetResource(site, rel).value, InShare(site.base, site.descriptors);
    ResourceAt(site, rel);
    DirectoryIsBest(site, rel);
    hide MountPath, EntryPath, GetResource, ChildNames, OverlayNames, MountOffers, OverlayHas, LocalNames;
    ResolvesBelow(site, rel, name);
    LocalNameIffLocal(site.local, dir.at, name);
    HasOneStepDown(ds, dir.at, name);
    OverlayNamesIff(ds, dir.at, name);
    if Best(ds, dir.at).None? {
      OffersWithoutMount(ds, dir.at, name);
    } else if name in ChildNames(Best(ds, dir.at).value.entries, dir.at[|MountPath(Best(ds, dir.at).value)|..]) {
      OffersOfBest(ds, dir.at, name);
    }
  }

  /** The listing a directory shows is that of the longest mount above it, and no local path lies below
      a directory that is not local. */
  lemma DirectoryIsBest(site: Site, rel: Path)
    requires LocalTree(site.local)
    requires GetResource(site, rel).Some? && GetResource(site, rel).value.IsDirectory()
    ensures var dir, best := GetResource(site, rel).value, Best(InShare(site.base, site.descriptors), site.base + rel);
            && (dir.OverlayDirectory? && dir.mount.Some? ==>
                  && best == dir.mount && dir.sub == dir.at[|MountPath(best.value)|..]
                  && forall name :: dir.at + [name] !in site.local)
            && (dir.OverlayDirectory? && dir.mount.None? ==> best.None?)
  {
    hide MountPath, EntryPath, Lookup;
    var dir := GetResource(site, rel).value;
    if dir.OverlayDirectory? {
      forall name ensures dir.at + [name] !in site.local {
        assert Parent(dir.at + [name]) == dir.at;
      }
    }
  }

  /** Mounts that keep apart mislead nobody. */
  lemma NotMisledWhenApart(site: Site, rel: Path, name: string)
    requires LocalTree(site.local) && MountsApart(InShare(site.base, site.descriptors))
    requires GetResource(site, rel).Some? && GetResource(site, rel).value.IsDirectory()
    ensures !Misled(site, GetResource(site, rel).value, name)
  {
    DirectoryIsBest(site, rel);
    hide MountPath, EntryPath, GetResource, ChildNames, InShare;
    var at, ds := site.base + rel, InShare(site.base, site.descriptors);
    ResourceAt(site, rel);
    var best := Best(ds, at);
    if best.Some? {
      assert IsBest(ds, at, best);
      forall m | m in ds && (MountPath(m) == at + [name] || at + [name] < MountPath(m) || MountPath(m) <= at)
        ensures m == best.value
      {
        AboveOneAnother(ds, best.value, m, at, name);
      }
    }
  }

  lemma AboveOneAnother(ds: seq<Descriptor>, d: Descriptor, m: Descriptor, at: Path, name: string)
    requires MountsApart(ds) && d in ds && m in ds && MountPath(d) <= at
    requires at + [name] <= MountPath(m) || MountPath(m) <= at
    ensures m == d
  {
  }

  /** With mounts apart: in any directory, a name is listed iff the path one step down resolves. */
  lemma ListedIffResolves(site: Site, rel: Path, name: string)
    requires LocalTree(site.local) && MountsApart(InShare(site.base, site.descriptors))
    requires GetResource(site, rel).Some? && GetResource(site, rel).value.IsDirectory()
    requires name != ".."
    ensures name in MemberNames(site, GetResource(site, rel).value) <==> GetResource(site, rel + [name]).Some?
  {
    hide GetResource, MemberNames, Misled;
    AgreeUnlessMisled(site, rel, name);
    NotMisledWhenApart(site, rel, name);
  }

  // ---- Walking down from the share root ----

  /** In every listing of the share, no file lies above another entry. */
  ghost predicate FilesAreLeaves(ds: seq<Descriptor>) {
    forall d, e, e' :: d in ds && e in d.entries && e' in d.entries && !e.isDir ==>
                         !(EntryPath(e) < EntryPath(e'))
  }

  /** No local file stands where the path to `at` needs a directory. */
  ghost predicate Unshadowed(site: Site, at: Path) {
    forall k :: |site.base| <= k < |at| && at[..k] in site.local ==> site.local[at[..k]]
  }

  ghost predicate WellFormed(site: Site) {
    && LocalTree(site.local)
    && MountsApart(InShare(site.base, site.descriptors))
    && FilesAreLeaves(InShare(site.base, site.descriptors))
  }

  /** Each name on the way is listed in the directory before it. */
  ghost predicate Walkable(site: Site, rel: Path) {
    forall k {:trigger rel[..k]} :: 0 <= k < |rel| ==>
      && GetResource(site, rel[..k]).Some? && GetResource(site, rel[..k]).value.IsDirectory()
      && rel[k] in MemberNames(site, GetResource(site, rel[..k]).value)
  }

  predicate OverlayIsDir(ds: seq<Descriptor>, at: Path) {
    var best := Best(ds, at);
    if best.None? then HasMountBelow(ds, at)
    else
      var sub := at[|MountPath(best.value)|..];
      sub == [] || Lookup(best.value.entries, sub).1
  }

  lemma OverlayDirAbove(ds: seq<Descriptor>, p: Path, at: Path)
    requires MountsApart(ds) && FilesAreLeaves(ds) && p < at && OverlayHas(ds, at)
    ensures OverlayIsDir(ds, p)
  {
    var best := Best(ds, at);
    assert IsBest(ds, at, best);
    if best.None? {
      var d :| d in ds && at < MountPath(d);
      NoMountAboveAMount(ds, d, p);
    } else {
      var d := best.value;
      var mount := MountPath(d);
      assert mount == at[..|mount|] && p == at[..|p|];
      if |p| < |mount| {
        assert p < mount;
        NoMountAboveAMount(ds, d, p);
      } else {
        assert mount <= p;
        OnlyMountAbove(ds, d, p);
        EntryAbove(d.entries, p[|mount|..], at[|mount|..]);
      }
    }
  }

  lemma EntryAbove(entries: seq<IndexedEntry>, sub: Path, deeper: Path)
    requires sub < deeper && Lookup(entries, deeper) != (None, false)
    requires forall e, e' :: e in entries && e' in entries && !e.isDir ==> !(EntryPath(e) < EntryPath(e'))
    ensures Lookup(entries, sub).1
  {
  }

  lemma {:induction false} LocalAncestors(local: map<Path, bool>, at: Path, k: nat)
    requires LocalTree(local) && at in local && k < |at|
    ensures at[..k] in local && local[at[..k]]
  {
    var parent := Parent(at);
    if k < |parent| {
      LocalAncestors(local, parent, k);
      assert parent[..k] == at[..k];
    }
  }

  lemma DirectoryWithoutLocal(site: Site, rel: Path)
    requires ".." !in rel && site.readable && site.overlay && site.base + rel !in site.local
    requires OverlayIsDir(InShare(site.base, site.descriptors), site.base + rel)
    ensures GetResource(site, rel).Some? && GetResource(site, rel).value.IsDirectory()
  {
  }

  /** Whatever resolves has directories all the way above it. */
  lemma AncestorIsDirectory(site: Site, rel: Path, k: nat)
    requires WellFormed(site) && Unshadowed(site, site.base + rel)
    requires GetResource(site, rel).Some? && k < |rel|
    ensures GetResource(site, rel[..k]).Some? && GetResource(site, rel[..k]).value.IsDirectory()
  {
    hide MountPath, EntryPath;
    ResourceAt(site, rel);
    var at, p := site.base + rel, site.base + rel[..k];
    assert p == at[..|site.base| + k] && p < at;
    if p !in site.local {
      if at in site.local {
        LocalAncestors(site.local, at, |p|);
        assert false;
      }
      ResolvesWithoutLocal(site, rel);
      OverlayDirAbove(InShare(site.base, site.descriptors), p, at);
      DirectoryWithoutLocal(site, rel[..k]);
    }
  }

  /** The step from `rel[..k]` is one that listing and resolution disagree on. */
  predicate MisledStep(site: Site, rel: Path, k: nat)
    requires k < |rel|
  {
    var dir := GetResource(site, rel[..k]);
    dir.Some? && dir.value.IsDirectory() && Misled(site, dir.value, rel[k])
  }

  ghost predicate DirectoriesAbove(site: Site, rel: Path) {
    forall k {:trigger rel[..k]} :: 0 <= k < |rel| ==>
      GetResource(site, rel[..k]).Some? && GetResource(site, rel[..k]).value.IsDirectory()
  }

  /** For any mounts, listings and local tree: what can be walked to is what has directories all the way
      above it, no misled step on the way there, and a last step that resolves or else is misled. A path
      that resolves is thus out of reach iff some step towards it is misled or leads to no directory. */
  lemma WalkableIff(site: Site, rel: Path)
    requires LocalTree(site.local) && rel != [] && ".." !in rel
    ensures Walkable(site, rel) <==>
              && DirectoriesAbove(site, rel)
              && (forall k :: 0 <= k < |rel| - 1 ==> !MisledStep(site, rel, k))
              && (GetResource(site, rel).Some? <==> !MisledStep(site, rel, |rel| - 1))
    ensures GetResource(site, rel).Some? ==>
              (Walkable(site, rel) <==>
                 DirectoriesAbove(site, rel) && forall k :: 0 <= k < |rel| ==> !MisledStep(site, rel, k))
  {
    hide GetResource, MemberNames, Misled, LocalTree;
    var n := |rel| - 1;
    assert rel[..n + 1] == rel;
    if DirectoriesAbove(site, rel) {
      forall k {:trigger rel[..k]} {:trigger MisledStep(site, rel, k)} | 0 <= k <= n
        ensures StepListed(site, rel, k) <==> (GetResource(site, rel[..k + 1]).Some? <==> !MisledStep(site, rel, k))
        ensures k < n ==> GetResource(site, rel[..k + 1]).Some?
      {
        OneStepFurther(rel, k);
        assert rel[k] in rel;
        AgreeUnlessMisled(site, rel[..k], rel[k]);
      }
      assert Walkable(site, rel) <==> forall k :: 0 <= k <= n ==> StepListed(site, rel, k);
    }
  }

  predicate StepListed(site: Site, rel: Path, k: nat)
    requires k < |rel|
  {
    var dir := GetResource(site, rel[..k]);
    dir.Some? && rel[k] in MemberNames(site, dir.value)
  }

  /** A path resolves iff it can be walked to: names listed one after the other lead there. */
  lemma ResolvesIffWalkable(site: Site, rel: Path)
    requires WellFormed(site) && Unshadowed(site, site.base + rel)
    requires rel != [] && ".." !in rel
    ensures GetResource(site, rel).Some? <==> Walkable(site, rel)
  {
    hide GetResource, MemberNames, MountPath, EntryPath;
    if GetResource(site, rel).Some? {
      forall k {:trigger rel[..k]} | 0 <= k < |rel|
        ensures GetResource(site, rel[..k]).Some? && GetResource(site, rel[..k]).value.IsDirectory()
        ensures rel[k] in MemberNames(site, GetResource(site, rel[..k]).value)
      {
        StepIsListed(site, rel, k);
      }
    }
    if Walkable(site, rel) {
      var k := |rel| - 1;
      assert rel[..k] + [rel[k]] == rel;
      ListedIffResolves(site, rel[..k], rel[k]);
    }
  }

  lemma PrefixResolves(site: Site, rel: Path, k: nat)
    requires WellFormed(site) && Unshadowed(site, site.base + rel)
    requires GetResource(site, rel).Some? && k <= |rel|
    ensures GetResource(site, rel[..k]).Some? && ".." !in rel
  {
    ResourceAt(site, rel);
    if k < |rel| {
      AncestorIsDirectory(site, rel, k);
    } else {
      assert rel[..k] == rel;
    }
  }

  lemma NextIsListed(site: Site, above: Path, name: string)
    requires LocalTree(site.local) && MountsApart(InShare(site.base, site.descriptors))
    requires GetResource(site, above).Some? && GetResource(site, above).value.IsDirectory()
    requires GetResource(site, above + [name]).Some?
    ensures name in MemberNames(site, GetResource(site, above).value)
  {
    ResourceAt(site, above + [name]);
    assert name in above + [name];
    ListedIffResolves(site, above, name);
  }

  lemma OneStepFurther(p: Path, k: nat)
    requires k < |p|
    ensures p[..k + 1] == p[..k] + [p[k]]
  {
  }

  lemma StepIsListed(site: Site, rel: Path, k: nat)
    requires WellFormed(site) && Unshadowed(site, site.base + rel)
    requires GetResource(site, rel).Some? && k < |rel|
    ensures GetResource(site, rel[..k]).Some? && GetResource(site, rel[..k]).value.IsDirectory()
    ensures rel[k] in MemberNames(site, GetResource(site, rel[..k]).value)
  {
    OneStepFurther(rel, k);
    AncestorIsDirectory(site, rel, k);
    PrefixResolves(site, rel, k + 1);
    NextIsListed(site, rel[..k], rel[k]);
  }

  /** Every indexed file of the share is reached by walking listed names from the share root, and what
      is found there is that file unless a local path or an indexed directory has taken its place. */
  lemma IndexedFileReached(site: Site, d: Descriptor, e: IndexedEntry, rel: Path)
    requires WellFormed(site) && site.readable && site.overlay
    requires d in InShare(site.base, site.descriptors) && e in d.entries && EntryPath(e) != []
    requires site.base + rel == MountPath(d) + EntryPath(e) && ".." !in rel
    requires Unshadowed(site, site.base + rel)
    ensures Walkable(site, rel)
    ensures GetResource(site, rel).Some?
    ensures (exists entry :: EntryPath(entry) == EntryPath(e) && !entry.isDir
                             && GetResource(site, rel) == Some(OverlayFile(site.base + rel, d, entry)))
            <==> site.base + rel !in site.local && !FirstExact(d.entries, EntryPath(e)).value.isDir
  {
    var at := site.base + rel;
    var ds := InShare(site.base, site.descriptors);
    if at !in site.local {
      assert MountPath(d) <= at;
      OnlyMountAbove(ds, d, at);
      assert at[|MountPath(d)|..] == EntryPath(e);
      assert FirstExact(d.entries, EntryPath(e)).Some?;
    }
    assert rel != [] by {
      InShareMembers(site.base, site.descriptors, d);
    }
    ResolvesIffWalkable(site, rel);
  }

  // ---- Where the agreement stops ----

  /** A mount at any depth inside another one resolves, and the way to it is not listed in the outer
      mount's directory, unless the outer listing happens to hold its first step. */
  lemma NestedMountNotListed(site: Site, rel: Path, inside: Path, outer: Descriptor, inner: Descriptor)
    requires site.readable && site.overlay && inside != [] && ".." !in rel + inside
    requires outer in InShare(site.base, site.descriptors) && inner in InShare(site.base, site.descriptors)
    requires MountPath(outer) == site.base + rel && MountPath(inner) == site.base + (rel + inside)
    requires MountPath(outer) !in site.local && MountPath(inner) !in site.local
    requires Best(InShare(site.base, site.descriptors), MountPath(outer)) == Some(outer)
    requires inside[0] !in ChildNames(outer.entries, [])
    ensures GetResource(site, rel) == Some(OverlayDirectory(MountPath(outer), Some(outer), []))
    ensures inside[0] !in MemberNames(site, GetResource(site, rel).value)
    ensures GetResource(site, rel + inside).Some? && GetResource(site, rel + inside).value.IsDirectory()
  {
    var ds := InShare(site.base, site.descriptors);
    var best := Best(ds, MountPath(inner));
    assert IsBest(ds, MountPath(inner), best);
    assert MountPath(inner)[|MountPath(best.value)|..] == [];
    assert forall s :: s in rel ==> s in rel + inside;
  }

  /** Two nested mounts: the outer one's listing holds "new/reel.mkv", the inner one stands at "new" or at
      "old" and its listing is empty. */
  function NestedMounts(inner: string, local: map<Path, bool>): Site {
    Site([], true, true,
         [Descriptor("a", ["films"], [IndexedEntry("new/reel.mkv", false)]), Descriptor("b", ["films", inner], [])],
         local)
  }

  /** A cachelink whose segments are proper path segments is mounted where they say. */
  lemma MountPathOf(d: Descriptor)
    requires CleanPath(d.segments)
    ensures MountPath(d) == d.segments
  {
    PartsOfJoin(d.segments);
  }

  lemma {:induction false} WholeShare(ds: seq<Descriptor>)
    ensures InShare([], ds) == ds
  {
    if ds != [] {
      WholeShare(ds[1..]);
      assert ds == [ds[0]] + ds[1..];
    }
  }

  lemma NestedMountPaths(inner: string, local: map<Path, bool>)
    requires CleanPath([inner])
    ensures var site := NestedMounts(inner, local);
            && InShare(site.base, site.descriptors) == site.descriptors
            && MountPath(site.descriptors[0]) == ["films"] && MountPath(site.descriptors[1]) == ["films", inner]
            && EntryPath(site.descriptors[0].entries[0]) == ["new", "reel.mkv"]
  {
    hide MountPath, Parts;
    var site := NestedMounts(inner, local);
    WholeShare(site.descriptors);
    assert inner in [inner];
    MountPathOf(site.descriptors[0]);
    MountPathOf(site.descriptors[1]);
    PartsOfJoin(["new", "reel.mkv"]);
    assert ["new", "reel.mkv"][1..] == ["reel.mkv"];
    assert Join('/', ["new", "reel.mkv"]) == "new/reel.mkv";
  }

  lemma InnermostIsBest(ds: seq<Descriptor>, p: Path, d: Descriptor)
    requires d in ds && MountPath(d) <= p
    requires forall m :: m in ds && m != d && MountPath(m) <= p ==> |MountPath(m)| < |MountPath(d)|
    ensures Best(ds, p) == Some(d)
  {
  }

  /** "/films/old" resolves and "/films" does not list it. */
  lemma NestedMountUnlisted()
    ensures var site := NestedMounts("old", map[]);
            && GetResource(site, ["films"]).Some? && GetResource(site, ["films"] + ["old"]).Some?
            && "old" !in MemberNames(site, GetResource(site, ["films"]).value)
  {
    var site := NestedMounts("old", map[]);
    NestedMountPaths("old", map[]);
    hide MountPath, EntryPath, InShare, NestedMounts;
    ShowUnlisted(site, site.descriptors[0], site.descriptors[1]);
  }

  lemma ShowUnlisted(site: Site, outer: Descriptor, inner: Descriptor)
    requires site == Site([], true, true, [outer, inner], map[])
    requires InShare(site.base, site.descriptors) == [outer, inner]
    requires MountPath(outer) == ["films"] && MountPath(inner) == ["films", "old"]
    requires |outer.entries| == 1 && EntryPath(outer.entries[0]) == ["new", "reel.mkv"]
    ensures GetResource(site, ["films"]).Some? && GetResource(site, ["films"] + ["old"]).Some?
    ensures "old" !in MemberNames(site, GetResource(site, ["films"]).value)
  {
    hide MountPath, EntryPath, InShare, Best;
    InnermostIsBest([outer, inner], ["films"], outer);
    assert site.base + ["films"] == ["films"];
    assert ["films"] + ["old"] == site.base + (["films"] + ["old"]) == ["films", "old"];
    assert "old" !in ChildNames(outer.entries, []);
    NestedMountNotListed(site, ["films"], ["old"], outer, inner);
  }

  /** Local directories on both mounts. */
  function OnDisk(): map<Path, bool> {
    map[[] := true, ["films"] := true, ["films", "new"] := true]
  }

  lemma OnDiskIsTree()
    ensures LocalTree(OnDisk())
  {
    assert Parent(["films"]) == [] && Parent(["films", "new"]) == ["films"];
  }

  /** With a local directory on the inner mount, "/films/new" lists the outer mount's "reel.mkv", which
      does not resolve. */
  lemma LocalDirectoryListsTooMuch()
    ensures var site := NestedMounts("new", OnDisk());
            && GetResource(site, ["films", "new"]) == Some(LocalDirectory(["films", "new"]))
            && "reel.mkv" in MemberNames(site, LocalDirectory(["films", "new"]))
            && GetResource(site, ["films", "new"] + ["reel.mkv"]) == None
  {
    var site := NestedMounts("new", OnDisk());
    NestedMountPaths("new", OnDisk());
    OnDiskIsTree();
    hide MountPath, EntryPath, InShare, NestedMounts, LocalTree;
    ShowTooMuch(site, site.descriptors[0], site.descriptors[1]);
  }

  lemma ShowTooMuch(site: Site, outer: Descriptor, inner: Descriptor)
    requires site == Site([], true, true, [outer, inner], OnDisk()) && LocalTree(site.local)
    requires InShare(site.base, site.descriptors) == [outer, inner]
    requires MountPath(outer) == ["films"] && MountPath(inner) == ["films", "new"] && inner.entries == []
    requires |outer.entries| == 1 && EntryPath(outer.entries[0]) == ["new", "reel.mkv"]
    ensures GetResource(site, ["films", "new"]) == Some(LocalDirectory(["films", "new"]))
    ensures "reel.mkv" in MemberNames(site, LocalDirectory(["films", "new"]))
    ensures GetResource(site, ["films", "new"] + ["reel.mkv"]) == None
  {
    hide MountPath, EntryPath, InShare, Best, LocalTree;
    var at := ["films", "new"];
    InnermostIsBest([outer, inner], at, inner);
    assert site.base + at == at && at[1..] == ["new"];
    assert "reel.mkv" in ChildNames(outer.entries, ["new"]);
    assert outer in [outer, inner];
    assert MountOffers([outer, inner], at, "reel.mkv");
    OverlayNamesIff([outer, inner], at, "reel.mkv");
    AgreeUnlessMisled(site, at, "reel.mkv");
  }

  /** An indexed ".." segment is listed like any other name, and never resolves. */
  lemma ParentSegmentListedNotResolved(site: Site, rel: Path, d: Descriptor, sub: Path)
    requires GetResource(site, rel) == Some(OverlayDirectory(site.base + rel, Some(d), sub)) && site.overlay
    requires HasBelow(d.entries, sub + [".."])
    ensures ".." in MemberNames(site, GetResource(site, rel).value)
    ensures GetResource(site, rel + [".."]) == None
  {
    ChildIffBelow(d.entries, sub, "..");
    assert ".." in rel + [".."];
  }
}
