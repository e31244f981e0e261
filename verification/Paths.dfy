/** Slash-separated paths as lists of segments. */
module Paths {
  import opened Text

  type Path = seq<string>

  /** PurePosixPath drops empty and "." segments. */
  predicate Kept(segment: string) {
    segment != "" && segment != "."
  }

  function Keep(segments: seq<string>): Path {
    if segments == [] then []
    else (if Kept(segments[0]) then [segments[0]] else []) + Keep(segments[1..])
  }

  /** `PurePosixPath(text.strip("/")).parts` */
  function Parts(text: string): Path {
    Keep(Split('/', text))
  }

  predicate CleanPath(p: Path) {
    AllFree('/', p) && forall s :: s in p ==> Kept(s)
  }

  lemma {:induction false} KeepClean(p: Path)
    requires CleanPath(p)
    ensures Keep(p) == p
  {
    if p != [] {
      assert p[0] in p;
      KeepClean(p[1..]);
    }
  }

  /** Writing a clean path out and reading it back gives the same path. */
  lemma PartsOfJoin(p: Path)
    requires CleanPath(p)
    ensures Parts(Join('/', p)) == p
  {
    if p == [] {
      assert Split('/', "") == [""];
    } else {
      SplitJoin('/', p);
      KeepClean(p);
    }
  }

  /** `PurePosixPath(root) / rel / child`, written out as an absolute path. */
  function FrontendPath(root: Path, rel: Path, child: string): string {
    "/" + Join('/', root + rel + [child])
  }

  function RStrip(text: string): string {
    if text != "" && text[|text| - 1] == '/' then RStrip(text[..|text| - 1]) else text
  }

  /** `full_path.rstrip("/").split("/")[-1]` */
  function LastSegment(text: string): string {
    var fields := Split('/', RStrip(text));
    fields[|fields| - 1]
  }

  lemma {:induction false} JoinEndsWithLast(p: Path)
    requires p != [] && "" !in p
    ensures Join('/', p) != "" && |Join('/', p)| >= |p[|p| - 1]| > 0
    ensures Join('/', p)[|Join('/', p)| - 1] == p[|p| - 1][|p[|p| - 1]| - 1]
  {
    assert p[|p| - 1] in p;
    if |p| > 1 {
      assert p[1..][|p| - 2] == p[|p| - 1];
      JoinEndsWithLast(p[1..]);
    }
  }

  /** The overlay listing passes child names through full paths; no name is changed on the way. */
  lemma NameSurvivesFrontendPath(root: Path, rel: Path, child: string)
    requires CleanPath(root + rel + [child])
    ensures LastSegment(FrontendPath(root, rel, child)) == child
  {
    var p := root + rel + [child];
    var full := FrontendPath(root, rel, child);
    JoinEndsWithLast(p);
    assert child in p && child[|child| - 1] in child;
    assert full[|full| - 1] == child[|child| - 1];
    assert RStrip(full) == full;
    assert full[1..] == Join('/', p);
    SplitJoin('/', p);
    assert Split('/', full) == [""] + p;
  }

  /** Dropping segments goes piece by piece, so the others keep their order. */
  lemma {:induction false} KeepAppends(a: seq<string>, b: seq<string>)
    ensures Keep(a + b) == Keep(a) + Keep(b)
  {
    if a == [] {
      assert a + b == b;
    } else {
      hide Kept;
      KeepAppends(a[1..], b);
      FirstOfBoth(a, b);
      var first := if Kept(a[0]) then [a[0]] else [];
      Regroup(first, Keep(a[1..]), Keep(b));
    }
  }

  lemma FirstOfBoth(a: seq<string>, b: seq<string>)
    requires a != []
    ensures (a + b)[0] == a[0] && (a + b)[1..] == a[1..] + b
  {
  }

  lemma Regroup(a: Path, b: Path, c: Path)
    ensures a + (b + c) == (a + b) + c
  {
  }

  /** Exactly the empty and the "." segments are dropped. */
  lemma KeepOne(segment: string)
    ensures Keep([segment]) == if segment == "" || segment == "." then [] else [segment]
  {
  }

  /** The segments of a text are the pieces between its slashes that say something. */
  lemma PartsMembers(text: string, segment: string)
    ensures segment in Parts(text) <==> segment in Split('/', text) && segment != "" && segment != "."
  {
    KeepMembers(Split('/', text), segment);
  }

  lemma {:induction false} KeepMembers(segments: seq<string>, segment: string)
    ensures segment in Keep(segments) <==> segment in segments && segment != "" && segment != "."
  {
    if segments != [] {
      KeepMembers(segments[1..], segment);
      assert segments == [segments[0]] + segments[1..];
    }
  }

  lemma {:induction false} KeepSubset(segments: seq<string>)
    ensures forall s :: s in Keep(segments) ==> s in segments && Kept(s)
  {
    if segments != [] {
      KeepSubset(segments[1..]);
    }
  }

  /** Whatever text a path is read from, the result is clean. */
  lemma PartsClean(text: string)
    ensures CleanPath(Parts(text))
  {
    SplitLeavesNoSeparator('/', text);
    KeepSubset(Split('/', text));
  }
}
