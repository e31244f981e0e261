/** The fingerprint of a remote listing: normalise each entry to a line, sort, join, hash. */
module ListingHash {
  import opened Wrappers
  import opened Text

  /** One parsed entry of a remote listing. */
  datatype Entry = Entry(path: string, name: string, isDir: bool,
                         size: Option<nat>, modified: Option<string>,
                         url: Option<string>, checksum: Option<string>)

  /** `entry.get("path") or entry.get("name") or ""` */
  function PathOf(e: Entry): string {
    if e.path != "" then e.path else e.name
  }

  /** `str(entry.get("size") or "")`: a size of zero and a missing size read the same. */
  function SizeText(size: Option<nat>): string {
    match size
    case None => ""
    case Some(n) => if n == 0 then "" else Decimal(n)
  }

  function LineOf(path: string, isDir: bool, size: Option<nat>, modified: string): string {
    path + "|" + (if isDir then "1" else "0") + "|" + SizeText(size) + "|" + modified
  }

  /** The normalised form of an entry. */
  function Line(e: Entry): string {
    LineOf(PathOf(e), e.isDir, e.size, e.modified.GetOr(""))
  }

  function Lines(entries: seq<Entry>): (lines: seq<string>)
    ensures |lines| == |entries|
    ensures forall i :: 0 <= i < |entries| ==> lines[i] == Line(entries[i])
  {
    seq(|entries|, i requires 0 <= i < |entries| => Line(entries[i]))
  }

  /** What is compared: the lines, with multiplicity, in no order. */
  function Normalised(entries: seq<Entry>): multiset<string> {
    multiset(Lines(entries))
  }

  function Digest(sha: string -> string, lines: seq<string>): string {
    sha(Join('\n', Sort(lines)))
  }

  method Hash(sha: string -> string, entries: seq<Entry>) returns (digest: string)
    ensures digest == Digest(sha, Lines(entries))
  {
    var normalized: seq<string> := [];
    for i := 0 to |entries|
      invariant normalized == Lines(entries)[..i]
    {
      normalized := normalized + [Line(entries[i])];
    }
    assert normalized == Lines(entries);
    digest := sha(Join('\n', Sort(normalized)));
  }

  // ---- What the fingerprint determines ----

  ghost predicate Injective(sha: string -> string) {
    forall x, y :: sha(x) == sha(y) ==> x == y
  }

  /** No line break in any field. */
  predicate Clean(entries: seq<Entry>) {
    forall e :: e in entries ==> Free('\n', PathOf(e)) && Free('\n', e.modified.GetOr(""))
  }

  predicate CleanLines(lines: seq<string>) {
    AllFree('\n', lines) && "" !in lines
  }

  lemma CleanEntriesCleanLines(entries: seq<Entry>)
    requires Clean(entries)
    ensures CleanLines(Lines(entries))
  {
    forall l | l in Lines(entries) ensures Free('\n', l) && l != "" {
      var i :| 0 <= i < |entries| && Lines(entries)[i] == l;
      assert entries[i] in entries;
      CleanLine(entries[i]);
    }
  }

  lemma CleanLine(e: Entry)
    requires Free('\n', PathOf(e)) && Free('\n', e.modified.GetOr(""))
    ensures Free('\n', Line(e)) && Line(e) != ""
  {
    match e.size {
      case Some(n) => DecimalFree('\n', n);
      case None =>
    }
  }

  lemma SameElements(a: seq<string>, b: seq<string>)
    requires multiset(a) == multiset(b) && CleanLines(a)
    ensures CleanLines(b)
  {
    forall l | l in b ensures l in a {
      assert l in multiset(b);
      assert l in multiset(a);
    }
  }

  /** The order of the listing never matters, whatever the fields hold. */
  lemma DigestIgnoresOrder(sha: string -> string, a: seq<string>, b: seq<string>)
    requires multiset(a) == multiset(b)
    ensures Digest(sha, a) == Digest(sha, b)
  {
    SortCanonical(a, b);
  }

  /** On clean lines, equal digests mean equal multisets, and the other way round. */
  lemma DigestIffSameLines(sha: string -> string, a: seq<string>, b: seq<string>)
    requires Injective(sha) && CleanLines(a) && CleanLines(b)
    ensures Digest(sha, a) == Digest(sha, b) <==> multiset(a) == multiset(b)
  {
    SortSorts(a);
    SortSorts(b);
    SameElements(a, Sort(a));
    SameElements(b, Sort(b));
    SortCanonical(a, b);
    if Digest(sha, a) == Digest(sha, b) {
      assert Join('\n', Sort(a)) == Join('\n', Sort(b));
      JoinInjective('\n', Sort(a), Sort(b));
    }
  }

  /** Change detection is exact: the fingerprints agree iff the normalised listings do. */
  lemma HashIffSameListing(sha: string -> string, a: seq<Entry>, b: seq<Entry>)
    requires Injective(sha) && Clean(a) && Clean(b)
    ensures Digest(sha, Lines(a)) == Digest(sha, Lines(b)) <==> Normalised(a) == Normalised(b)
  {
    CleanEntriesCleanLines(a);
    CleanEntriesCleanLines(b);
    DigestIffSameLines(sha, Lines(a), Lines(b));
  }

  // ---- Which listings can be confused ----

  /** What the HTML listing parser lets through as the target of a link. */
  predicate AcceptedHref(href: string) {
    && |href| > 2 && !IsSpace(href[0]) && !IsSpace(href[|href| - 1]) && href[|href| - 1] != '/'
    && !("#" <= href) && !("?" <= href) && !("http" <= href) && !("//web.archive.org/" <= href)
    && ("/" <= href ==> "//" <= href) && ("//archive.org/" <= href ==> "//archive.org/download/" <= href)
  }

  /** The tests of the HTML listing parser for links it leaves out, in its order. */
  predicate LeftOut(href: string) {
    || href in {"../", "..", "/", "./", "."}
    || ("/" <= href && !("//" <= href))
    || "/web/" <= href || "//web.archive.org/" <= href
    || ("//archive.org/" <= href && !("//archive.org/download/" <= href))
    || "/details/" <= href || "#" <= href || "?" <= href || "http" <= href
    || href == "" || Strip(href) != href
    || (|href| <= 2 && href[|href| - 1] != '/')
  }

  /** A link is let through iff none of the parser's tests leaves it out and it does not name a directory. */
  lemma AcceptedIff(href: string)
    ensures AcceptedHref(href) <==> !LeftOut(href) && href[|href| - 1] != '/'
  {
    StripShortens(href);
    assert "/" <= href <==> |href| > 0 && href[0] == '/';
    assert "//" <= href <==> |href| > 1 && href[0] == '/' && href[1] == '/';
    assert "/web/" <= href ==> href[0] == '/' && href[1] == 'w';
    assert "/details/" <= href ==> href[0] == '/' && href[1] == 'd';
  }

  /** An entry as the HTML listing parser makes it: files only, no size, no time. */
  predicate FromAnchor(e: Entry) {
    && AcceptedHref(e.path) && |Strip(e.name)| > 1 && !e.isDir && e.url.Some?
    && e.size.None? && e.modified.None? && e.checksum.None?
  }

  /** All lines but the last, pushed into the path of the last one's entry. */
  function Swallowed(before: string, last: Entry): Entry {
    last.(path := before + "\n" + PathOf(last))
  }

  lemma SwallowedLine(before: string, last: Entry)
    ensures Line(Swallowed(before, last)) == before + "\n" + Line(last)
  {
  }

  lemma Regroup(a: string, b: string, c: string, d: string)
    ensures (a + b) + c + d == a + (b + c + d)
  {
  }

  lemma LineAfterPath(e: Entry) returns (rest: string)
    ensures Line(e) == PathOf(e) + "|" + rest
    ensures rest == (if e.isDir then "1" else "0") + "|" + SizeText(e.size) + "|" + e.modified.GetOr("")
  {
    rest := (if e.isDir then "1" else "0") + "|" + SizeText(e.size) + "|" + e.modified.GetOr("");
    Regroup(PathOf(e) + "|", if e.isDir then "1" else "0", "|", SizeText(e.size) + "|" + e.modified.GetOr(""));
    Regroup(PathOf(e) + "|" + (if e.isDir then "1" else "0") + "|", SizeText(e.size), "|", e.modified.GetOr(""));
  }

  lemma PrefixBeforeBar(first: string, rest: string, p: string)
    requires '|' !in p
    ensures p <= first + "|" + rest <==> p <= first
  {
    var href := first + "|" + rest;
    assert href[|first|] == '|';
    assert p <= href ==> forall i :: 0 <= i < |p| ==> href[i] in p;
  }

  /** A path that begins with an accepted one and a bar, and ends with another, is accepted. */
  lemma LongerHrefAccepted(first: string, middle: string, last: string)
    requires AcceptedHref(first) && AcceptedHref(last)
    ensures AcceptedHref(first + "|" + middle + last)
  {
    var href := first + "|" + (middle + last);
    assert href == first + "|" + middle + last;
    PrefixBeforeBar(first, middle + last, "#");
    PrefixBeforeBar(first, middle + last, "?");
    PrefixBeforeBar(first, middle + last, "http");
    PrefixBeforeBar(first, middle + last, "/");
    PrefixBeforeBar(first, middle + last, "//");
    PrefixBeforeBar(first, middle + last, "//web.archive.org/");
    PrefixBeforeBar(first, middle + last, "//archive.org/");
    PrefixBeforeBar(first, middle + last, "//archive.org/download/");
  }

  /** The entry whose one line reads like all the lines of `a`. */
  lemma OneForAll(a: seq<Entry>) returns (one: Entry, first: Entry, rest: string, last: Entry)
    requires |a| >= 2
    ensures Line(one) == Join('\n', Sort(Lines(a)))
    ensures first in a && last in a && one == last.(path := PathOf(first) + "|" + rest + PathOf(last))
  {
    hide Join, Sort, Line, SizeText;
    var sorted, n := Sort(Lines(a)), |a| - 1;
    SortKeepsLength(Lines(a));
    first := EntryOfLine(a, sorted[0]);
    last := EntryOfLine(a, sorted[n]);
    var before := Join('\n', sorted[..n]);
    one := Swallowed(before, last);
    SplitOffLast(sorted);
    JoinSnoc('\n', sorted[..n], sorted[n]);
    SwallowedLine(before, last);
    var more := StartsWithFirst(sorted[..n]);
    var flags := LineAfterPath(first);
    rest := flags + more + "\n";
    FourParts(PathOf(first) + "|", flags, more, "\n", PathOf(last));
  }

  lemma SortKeepsLength(lines: seq<string>)
    ensures |Sort(lines)| == |lines|
    ensures forall i :: 0 <= i < |lines| ==> Sort(lines)[i] in multiset(Sort(lines))
  {
    SortSorts(lines);
    assert |Sort(lines)| == |multiset(Sort(lines))|;
  }

  lemma SplitOffLast(lines: seq<string>)
    requires lines != []
    ensures lines == lines[..|lines| - 1] + [lines[|lines| - 1]]
  {
  }

  lemma FourParts(a: string, b: string, c: string, d: string, e: string)
    ensures (a + b + c) + d + e == a + (b + c + d) + e
  {
  }

  /** No listing of two or more entries is safe from a line break: a listing of one entry has the same
      fingerprint, and the parser lets that entry through if it lets the others through. */
  lemma LineBreakHidesChange(sha: string -> string, a: seq<Entry>) returns (one: Entry)
    requires |a| >= 2
    ensures Digest(sha, Lines([one])) == Digest(sha, Lines(a)) && Normalised([one]) != Normalised(a)
    ensures (forall e :: e in a ==> FromAnchor(e)) ==> FromAnchor(one)
  {
    var first, rest, last;
    one, first, rest, last := OneForAll(a);
    OneLineDigest(sha, one);
    assert |Normalised([one])| == 1 && |Normalised(a)| == |a|;
    if forall e :: e in a ==> FromAnchor(e) {
      LongerHrefAccepted(first.path, rest, last.path);
    }
  }

  lemma OneLineDigest(sha: string -> string, e: Entry)
    ensures Sort(Lines([e])) == Lines([e]) && Digest(sha, Lines([e])) == sha(Line(e))
  {
  }

  lemma EntryOfLine(a: seq<Entry>, line: string) returns (e: Entry)
    requires line in multiset(Lines(a)) || line in multiset(Sort(Lines(a)))
    ensures e in a && Line(e) == line
  {
    SortSorts(Lines(a));
    assert line in multiset(Lines(a));
    var i :| 0 <= i < |a| && Lines(a)[i] == line;
    e := a[i];
  }

  lemma StartsWithFirst(lines: seq<string>) returns (rest: string)
    requires lines != []
    ensures Join('\n', lines) == lines[0] + rest
  {
    rest := Join('\n', lines)[|lines[0]|..];
  }

  /** A listing without line breaks shares its fingerprint with a different one iff it has two entries
      or more: only empty and one-line listings can be told from everything else. */
  lemma ConfusableIff(sha: string -> string, a: seq<Entry>)
    requires Injective(sha) && Clean(a)
    ensures (exists b :: Digest(sha, Lines(b)) == Digest(sha, Lines(a)) && Normalised(b) != Normalised(a))
            <==> |a| >= 2
  {
    if |a| >= 2 {
      var one := LineBreakHidesChange(sha, a);
    } else {
      forall b | Digest(sha, Lines(b)) == Digest(sha, Lines(a)) ensures Normalised(b) == Normalised(a) {
        ShortListingsAreSafe(sha, a, b);
      }
    }
  }

  lemma ShortListingsAreSafe(sha: string -> string, a: seq<Entry>, b: seq<Entry>)
    requires Injective(sha) && Clean(a) && |a| < 2 && Digest(sha, Lines(b)) == Digest(sha, Lines(a))
    ensures Normalised(b) == Normalised(a)
  {
    var sorted := Sort(Lines(b));
    SortSorts(Lines(b));
    forall line | line in sorted ensures line != "" {
      var e := EntryOfLine(b, line);
    }
    JoinEmpty('\n', sorted);
    if a == [] {
      assert Sort(Lines(a)) == [];
      assert sorted == [];
    } else {
      assert a == [a[0]];
      OneLineDigest(sha, a[0]);
      CleanLine(a[0]);
      JoinWithoutBreak(sorted, Line(a[0]));
      assert Lines(a) == [Line(a[0])];
    }
  }

  lemma JoinWithoutBreak(lines: seq<string>, line: string)
    requires Join('\n', lines) == line && line != "" && Free('\n', line)
    ensures lines == [line]
  {
  }

  /** When no path holds a bar, a line gives back every field that was written into it. */
  lemma LineDeterminesFields(a: Entry, b: Entry)
    requires Free('|', PathOf(a)) && Free('|', PathOf(b)) && Line(a) == Line(b)
    ensures PathOf(a) == PathOf(b) && a.isDir == b.isDir
    ensures a.size.GetOr(0) == b.size.GetOr(0) && a.modified.GetOr("") == b.modified.GetOr("")
  {
    SizeTextMeans(a.size);
    SizeTextMeans(b.size);
    SplitLine(a);
    SplitLine(b);
    var pa, pb := Split('|', Line(a)), Split('|', Line(b));
    assert pa[0] == pb[0] && pa[1] == pb[1] && pa[2] == pb[2];
    var head := PathOf(a) + "|" + pa[1] + "|" + pa[2] + "|";
    assert Line(a) == head + a.modified.GetOr("") && Line(b) == head + b.modified.GetOr("");
    assert Line(a)[|head|..] == a.modified.GetOr("") && Line(b)[|head|..] == b.modified.GetOr("");
  }

  /** A size reads as its numeral; only a missing size and zero read the same. */
  lemma SizeTextMeans(size: Option<nat>)
    ensures SizeText(size) == "" <==> size == None || size == Some(0)
    ensures size.Some? && size.value > 0 ==>
              ValueOf(SizeText(size)) == size.value && SizeText(size)[0] != '0'
              && forall c :: c in SizeText(size) ==> '0' <= c <= '9'
    ensures ValueOf(SizeText(size)) == size.GetOr(0)
  {
    if size.Some? {
      DecimalMeans(size.value);
      if |SizeText(size)| == 1 {
        assert ValueOf(SizeText(size)[..0]) == 0;
      }
    }
  }

  /** The normalised line of an entry, part by part. */
  lemma LineMeans(e: Entry)
    ensures Line(e) == (if e.path != "" then e.path else e.name) + "|" + (if e.isDir then "1" else "0") + "|"
                       + SizeText(e.size) + "|" + (if e.modified.Some? then e.modified.value else "")
  {
  }

  lemma SplitLine(e: Entry)
    requires Free('|', PathOf(e))
    ensures |Split('|', Line(e))| >= 4
    ensures Split('|', Line(e))[..3] == [PathOf(e), if e.isDir then "1" else "0", SizeText(e.size)]
  {
    var flag := if e.isDir then "1" else "0";
    var last := e.modified.GetOr("");
    assert Free('|', SizeText(e.size)) by {
      match e.size {
        case Some(n) => DecimalFree('|', n);
        case None =>
      }
    }
    LineShape(PathOf(e), flag, SizeText(e.size), last);
    SplitThree('|', PathOf(e), flag, SizeText(e.size), last);
  }

  lemma LineShape(a: string, b: string, c: string, d: string)
    ensures a + "|" + b + "|" + c + "|" + d == a + ['|'] + (b + ['|'] + (c + ['|'] + d))
  {
  }
}
