/** Merging the wheels of a build into the index, over any sequence of builds. */
module WheelMerge {
  import opened Seqs
  import opened WheelIndex

  // ----- Removing duplicates -----

  /** Keeps the first link of every file name not seen yet and drops lines without a name. */
  function Dedup(links: seq<string>, seen: set<string>): seq<string> {
    if links == [] then []
    else
      match Name(links[0])
      case None => Dedup(links[1..], seen)
      case Some(n) =>
        if n in seen then Dedup(links[1..], seen)
        else [links[0]] + Dedup(links[1..], seen + {n})
  }

  function Names(links: seq<string>): set<string> {
    if links == [] then {}
    else (match Name(links[0]) case None => {} case Some(n) => {n}) + Names(links[1..])
  }

  /** The first link for a file name: the one `pip` resolves to. */
  function LinkFor(links: seq<string>, file: string): Option<string> {
    if links == [] then None
    else if Name(links[0]) == Some(file) then Some(links[0])
    else LinkFor(links[1..], file)
  }

  /** The de-duplication loop. */
  method RemoveDuplicates(links: seq<string>) returns (unique: seq<string>)
    ensures unique == Dedup(links, {})
  {
    var seen: set<string> := {};
    unique := [];
    for i := 0 to |links|
      invariant unique + Dedup(links[i..], seen) == Dedup(links, {})
    {
      assert links[i..][0] == links[i] && links[i..][1..] == links[i + 1..];
      var name := Name(links[i]);
      if name.Some? && name.value !in seen {
        seen := seen + {name.value};
        unique := unique + [links[i]];
      }
    }
  }

  /** The first link of its name, and of a name not seen before. */
  predicate IsFirst(links: seq<string>, seen: set<string>, i: nat) {
    && i < |links| && Name(links[i]).Some? && Name(links[i]).value !in seen
    && forall j :: 0 <= j < i ==> Name(links[j]) != Name(links[i])
  }

  function Shifted(idx: seq<nat>): (shifted: seq<nat>)
    ensures |shifted| == |idx| && forall k :: 0 <= k < |idx| ==> shifted[k] == idx[k] + 1
  {
    if idx == [] then [] else Shifted(idx[..|idx| - 1]) + [idx[|idx| - 1] + 1]
  }

  lemma {:induction false} IsFirstBehind(links: seq<string>, seen: set<string>, i: nat)
    requires links != [] && i < |links| - 1
    ensures IsFirst(links, seen, i + 1) <==>
            IsFirst(links[1..], if Name(links[0]).Some? then seen + {Name(links[0]).value} else seen, i)
  {
    var rest := links[1..];
    assert forall j :: 0 <= j < |rest| ==> rest[j] == links[j + 1];
    if IsFirst(links, seen, i + 1) {
      assert Name(links[0]) != Name(links[i + 1]);
      forall j | 0 <= j < i ensures Name(rest[j]) != Name(rest[i]) {
        assert Name(links[j + 1]) != Name(links[i + 1]);
      }
    } else if IsFirst(rest, if Name(links[0]).Some? then seen + {Name(links[0]).value} else seen, i) {
      forall j | 0 <= j < i + 1 ensures Name(links[j]) != Name(links[i + 1]) {
        if j > 0 {
          assert Name(rest[j - 1]) != Name(rest[i]);
        }
      }
    }
  }

  /** De-duplication keeps exactly the first link of every name, in the order of the list: newer links first. */
  lemma {:induction false} DedupPicks(links: seq<string>, seen: set<string>) returns (idx: seq<nat>)
    ensures Ascending(idx) && |idx| == |Dedup(links, seen)|
    ensures forall i: nat :: i in idx <==> IsFirst(links, seen, i)
    ensures forall k :: 0 <= k < |idx| ==> idx[k] < |links| && Dedup(links, seen)[k] == links[idx[k]]
  {
    if links == [] {
      idx := [];
    } else {
      var now := if Name(links[0]).Some? then seen + {Name(links[0]).value} else seen;
      var kept := IsFirst(links, seen, 0);
      assert !kept ==> now == seen;
      var later := DedupPicks(links[1..], now);
      idx := if kept then [0] + Shifted(later) else Shifted(later);
      forall i: nat ensures i in idx <==> IsFirst(links, seen, i) {
        PickedBehind(links, seen, now, later, idx, i);
      }
      if kept {
        DedupKept(links, Dedup(links[1..], now), later);
      } else {
        DedupDropped(links, Dedup(links[1..], now), later);
      }
    }
  }

  lemma {:induction false} DedupDropped(links: seq<string>, rest: seq<string>, later: seq<nat>)
    requires links != [] && Ascending(later) && |later| == |rest|
    requires forall k :: 0 <= k < |later| ==> later[k] < |links| - 1 && rest[k] == links[1..][later[k]]
    ensures var idx := Shifted(later);
            Ascending(idx) && forall k :: 0 <= k < |idx| ==> idx[k] < |links| && rest[k] == links[idx[k]]
  {
  }

  lemma {:induction false} DedupKept(links: seq<string>, rest: seq<string>, later: seq<nat>)
    requires links != [] && Ascending(later) && |later| == |rest|
    requires forall k :: 0 <= k < |later| ==> later[k] < |links| - 1 && rest[k] == links[1..][later[k]]
    ensures var idx, all := [0] + Shifted(later), [links[0]] + rest;
            Ascending(idx) && forall k :: 0 <= k < |idx| ==> idx[k] < |links| && all[k] == links[idx[k]]
  {
    DedupDropped(links, rest, later);
  }

  lemma {:induction false} PickedBehind(links: seq<string>, seen: set<string>, now: set<string>, later: seq<nat>,
                                        idx: seq<nat>, i: nat)
    requires links != [] && now == if Name(links[0]).Some? then seen + {Name(links[0]).value} else seen
    requires forall j: nat :: j in later <==> IsFirst(links[1..], now, j)
    requires idx == if IsFirst(links, seen, 0) then [0] + Shifted(later) else Shifted(later)
    ensures i in idx <==> IsFirst(links, seen, i)
  {
    if i > 0 {
      if i < |links| {
        IsFirstBehind(links, seen, i - 1);
      }
      assert i in Shifted(later) <==> i - 1 in later by {
        if i - 1 in later {
          var k :| 0 <= k < |later| && later[k] == i - 1;
          assert Shifted(later)[k] == i;
        }
      }
    } else {
      assert 0 !in Shifted(later);
    }
  }

  lemma {:induction false} LinkForConcat(a: seq<string>, b: seq<string>, file: string)
    ensures LinkFor(a + b, file) == if LinkFor(a, file).Some? then LinkFor(a, file) else LinkFor(b, file)
  {
    if a == [] {
      assert a + b == b;
    } else {
      assert (a + b)[1..] == a[1..] + b;
      LinkForConcat(a[1..], b, file);
    }
  }

  /** De-duplication loses no file name and keeps each name's first link. */
  lemma {:induction false} DedupKeepsFirst(links: seq<string>, seen: set<string>, file: string)
    ensures LinkFor(Dedup(links, seen), file) == if file in seen then None else LinkFor(links, file)
  {
    if links != [] {
      match Name(links[0])
      case None =>
        DedupKeepsFirst(links[1..], seen, file);
      case Some(n) =>
        if n in seen {
          DedupKeepsFirst(links[1..], seen, file);
        } else {
          DedupKeepsFirst(links[1..], seen + {n}, file);
          var d := Dedup(links[1..], seen + {n});
          assert ([links[0]] + d)[1..] == d;
        }
    }
  }

  ghost predicate UniqueNames(links: seq<string>) {
    && (forall i :: 0 <= i < |links| ==> Name(links[i]).Some?)
    && (forall i, j :: 0 <= i < j < |links| ==> Name(links[i]) != Name(links[j]))
  }

  lemma {:induction false} DedupUnique(links: seq<string>, seen: set<string>)
    ensures UniqueNames(Dedup(links, seen))
    ensures forall i :: 0 <= i < |Dedup(links, seen)| ==>
              Name(Dedup(links, seen)[i]).Some? && Name(Dedup(links, seen)[i]).value !in seen
  {
    if links != [] {
      match Name(links[0])
      case None => DedupUnique(links[1..], seen);
      case Some(n) => DedupUnique(links[1..], if n in seen then seen else seen + {n});
    }
  }

  lemma {:induction false} DedupConcat(a: seq<string>, b: seq<string>, seen: set<string>)
    ensures Dedup(a + b, seen) == Dedup(a, seen) + Dedup(b, seen + Names(a))
  {
    if a == [] {
      assert a + b == b && seen + Names(a) == seen;
    } else {
      assert (a + b)[1..] == a[1..] + b;
      match Name(a[0])
      case None =>
        assert seen + Names(a) == seen + Names(a[1..]);
        DedupConcat(a[1..], b, seen);
      case Some(n) =>
        if n in seen {
          assert seen + Names(a) == seen + Names(a[1..]);
          DedupConcat(a[1..], b, seen);
        } else {
          assert seen + Names(a) == seen + {n} + Names(a[1..]);
          DedupConcat(a[1..], b, seen + {n});
        }
    }
  }

  lemma {:induction false} DedupSeen(links: seq<string>, seen: set<string>)
    requires Names(links) <= seen
    ensures Dedup(links, seen) == []
  {
    if links != [] {
      DedupSeen(links[1..], seen);
    }
  }

  /** Older links that were de-duplicated before may as well not have been. */
  lemma {:induction false} DedupAbsorbs(a: seq<string>, b: seq<string>)
    ensures Dedup(a + Dedup(b, {}), {}) == Dedup(a + b, {})
  {
    DedupConcat(a, Dedup(b, {}), {});
    DedupConcat(a, b, {});
    DedupUnder(b, {}, Names(a));
    assert {} + Names(a) == Names(a);
  }

  lemma {:induction false} DedupUnder(links: seq<string>, seen: set<string>, more: set<string>)
    ensures Dedup(Dedup(links, seen), seen + more) == Dedup(links, seen + more)
  {
    if links != [] {
      match Name(links[0])
      case None =>
        DedupUnder(links[1..], seen, more);
      case Some(n) =>
        if n in seen {
          DedupUnder(links[1..], seen, more);
        } else {
          var d := Dedup(links[1..], seen + {n});
          assert ([links[0]] + d)[1..] == d;
          DedupUnder(links[1..], seen + {n}, more);
          assert seen + {n} + more == seen + more + {n};
          if n in more {
            assert seen + more + {n} == seen + more;
          }
        }
    }
  }

  // ----- What is read back is always a list of links -----

  lemma {:induction false} UniversalHasNoReturns(s: string)
    ensures '\r' !in Universal(s)
  {
    if s != [] {
      if s[0] != '\r' {
        UniversalHasNoReturns(s[1..]);
      } else if |s| > 1 && s[1] == '\n' {
        UniversalHasNoReturns(s[2..]);
      } else {
        UniversalHasNoReturns(s[1..]);
      }
    }
  }

  lemma {:induction false} SplitLines(s: string)
    requires '\r' !in s
    ensures forall i :: 0 <= i < |Split(s)| ==> OneLine(Split(s)[i])
  {
    if s != [] {
      SplitLines(s[1..]);
    }
  }

  ghost predicate AllLinks(links: seq<string>) {
    forall i :: 0 <= i < |links| ==> IsLink(links[i])
  }

  lemma {:induction false} LinkLinesAreLinks(lines: seq<string>)
    requires forall i :: 0 <= i < |lines| ==> OneLine(lines[i])
    ensures AllLinks(LinkLines(lines))
  {
    if lines != [] {
      LinkLinesAreLinks(lines[1..]);
    }
  }

  lemma {:induction false} ReadGivesLinks(file: Option<string>)
    ensures AllLinks(Read(file))
  {
    if file.Some? {
      UniversalHasNoReturns(file.value);
      SplitLines(Universal(file.value));
      LinkLinesAreLinks(Split(Universal(file.value)));
    }
  }

  lemma {:induction false} DedupLinks(links: seq<string>, seen: set<string>)
    requires AllLinks(links)
    ensures AllLinks(Dedup(links, seen))
  {
    if links != [] {
      match Name(links[0])
      case None => DedupLinks(links[1..], seen);
      case Some(n) => DedupLinks(links[1..], if n in seen then seen else seen + {n});
    }
  }

  // ----- Builds -----

  datatype Wheel = Wheel(file: string, sha: string)

  datatype Build = Build(tag: string, wheels: seq<Wheel>)

  const HOST := "https://github.com/"
  const REPO := "sgl-project/whl/"
  const DOWNLOADS := "releases/download"
  const BASE := HOST + REPO + DOWNLOADS

  function Url(tag: string, wheel: Wheel): string {
    BASE + "/" + tag + "/" + wheel.file + "#sha256=" + wheel.sha
  }

  function NewLinks(tag: string, wheels: seq<Wheel>): seq<string> {
    if wheels == [] then []
    else [MakeLink(Url(tag, wheels[0]), wheels[0].file)] + NewLinks(tag, wheels[1..])
  }

  /** `update_wheel_index`: refuses a build without wheels and then leaves the file alone. */
  function Update(file: Option<string>, cuda: string, b: Build): Result<string> {
    if b.wheels == [] then Err("no wheels found")
    else Ok(Write(cuda, Dedup(NewLinks(b.tag, b.wheels) + Read(file), {})))
  }

  /** The same, step by step: links for the wheels at hand, older links behind them, duplicates removed. */
  method UpdateWheelIndex(file: Option<string>, cuda: string, b: Build) returns (r: Result<string>)
    ensures r == Update(file, cuda, b)
  {
    var newLinks := [];
    for i := 0 to |b.wheels|
      invariant newLinks + NewLinks(b.tag, b.wheels[i..]) == NewLinks(b.tag, b.wheels)
    {
      assert b.wheels[i..][0] == b.wheels[i] && b.wheels[i..][1..] == b.wheels[i + 1..];
      newLinks := newLinks + [MakeLink(Url(b.tag, b.wheels[i]), b.wheels[i].file)];
    }
    assert newLinks == NewLinks(b.tag, b.wheels);
    if b.wheels == [] {
      return Err("no wheels found");
    }
    var unique := RemoveDuplicates(newLinks + Read(file));
    r := Ok(Write(cuda, unique));
  }

  /** The file after a sequence of builds. */
  function Index(file: Option<string>, cuda: string, builds: seq<Build>): Option<string> {
    if builds == [] then file
    else
      var before := Index(file, cuda, builds[..|builds| - 1]);
      match Update(before, cuda, builds[|builds| - 1])
      case Err(_) => before
      case Ok(content) => Some(content)
  }

  /** Tags, file names and digests without line breaks. */
  predicate OneLineBuild(b: Build) {
    OneLine(b.tag) && forall i :: 0 <= i < |b.wheels| ==> OneLine(b.wheels[i].file) && OneLine(b.wheels[i].sha)
  }

  lemma {:induction false} MadeIsLink(tag: string, wheel: Wheel)
    requires OneLine(tag) && OneLine(wheel.file) && OneLine(wheel.sha)
    ensures IsLink(MakeLink(Url(tag, wheel), wheel.file))
  {
    BaseClean();
    assert OneLine("/") && OneLine("#sha256=");
    var url := Url(tag, wheel);
    assert OneLine(url);
    assert OneLine(PREFIX + "\"") && OneLine("\">") && OneLine("</a><br>");
    assert MakeLink(url, wheel.file)[..|PREFIX|] == PREFIX;
  }

  lemma {:induction false} NewLinksAreLinks(b: Build)
    requires OneLineBuild(b)
    ensures AllLinks(NewLinks(b.tag, b.wheels))
    decreases |b.wheels|
  {
    if b.wheels != [] {
      NewLinksAreLinks(b.(wheels := b.wheels[1..]));
      MadeIsLink(b.tag, b.wheels[0]);
    }
  }

  /** Tags, file names and digests without markup either; file names that end in `.whl`. */
  predicate CleanBuild(b: Build) {
    Clean(b.tag) && forall i :: 0 <= i < |b.wheels| ==> WheelName(b.wheels[i].file) && Clean(b.wheels[i].sha)
  }

  lemma {:induction false} UrlClean(tag: string, wheel: Wheel)
    requires Clean(tag) && WheelName(wheel.file) && Clean(wheel.sha)
    ensures Clean(Url(tag, wheel))
  {
    BaseClean();
    assert Clean("/") && Clean("#sha256=");
  }

  lemma {:induction false} BaseClean()
    ensures Clean(BASE)
  {
    assert Clean(HOST);
    assert Clean(REPO);
    assert Clean(DOWNLOADS);
  }

  function FindWheel(wheels: seq<Wheel>, file: string): Option<Wheel> {
    if wheels == [] then None
    else if wheels[0].file == file then Some(wheels[0])
    else FindWheel(wheels[1..], file)
  }

  lemma {:induction false} NewLinksFacts(b: Build, file: string)
    requires CleanBuild(b)
    ensures LinkFor(NewLinks(b.tag, b.wheels), file) ==
            match FindWheel(b.wheels, file)
            case None => None
            case Some(wheel) => Some(MakeLink(Url(b.tag, wheel), file))
    decreases |b.wheels|
  {
    if b.wheels != [] {
      var first, rest := b.wheels[0], b.(wheels := b.wheels[1..]);
      NewLinksFacts(rest, file);
      UrlClean(b.tag, first);
      NameOfMade(Url(b.tag, first), first.file);
      var link, links := MakeLink(Url(b.tag, first), first.file), NewLinks(b.tag, rest.wheels);
      assert ([link] + links)[1..] == links;
    }
  }

  /** What an update leaves in the file, read back. */
  lemma {:induction false} UpdateReads(file: Option<string>, cuda: string, b: Build)
    requires OneLine(cuda) && OneLineBuild(b) && b.wheels != []
    ensures Read(Some(Update(file, cuda, b).value)) == Dedup(NewLinks(b.tag, b.wheels) + Read(file), {})
  {
    var links := NewLinks(b.tag, b.wheels) + Read(file);
    NewLinksAreLinks(b);
    ReadGivesLinks(file);
    DedupLinks(links, {});
    RoundTrip(cuda, Dedup(links, {}));
  }

  /** Repeating an update with the same wheels changes nothing, whatever the file held before. */
  lemma {:induction false} UpdateIsIdempotent(file: Option<string>, cuda: string, b: Build)
    requires OneLine(cuda) && OneLineBuild(b) && b.wheels != []
    ensures Update(Some(Update(file, cuda, b).value), cuda, b) == Update(file, cuda, b)
  {
    var a, older := NewLinks(b.tag, b.wheels), Read(file);
    UpdateReads(file, cuda, b);
    DedupAbsorbs(a, a + older);
    DedupConcat(a, a + older, {});
    DedupConcat(a, older, {} + Names(a));
    DedupConcat(a, older, {});
    DedupSeen(a, {} + Names(a));
    assert {} + Names(a) + Names(a) == {} + Names(a);
    assert [] + Dedup(older, {} + Names(a)) == Dedup(older, {} + Names(a));
  }

  /** The link of the newest build that recorded the name. */
  function Newest(builds: seq<Build>, name: string): Option<string> {
    if builds == [] then None
    else
      var last := builds[|builds| - 1];
      match LinkFor(NewLinks(last.tag, last.wheels), name)
      case Some(link) => Some(link)
      case None => Newest(builds[..|builds| - 1], name)
  }

  ghost predicate AllOneLine(builds: seq<Build>) {
    forall i :: 0 <= i < |builds| ==> OneLineBuild(builds[i])
  }

  /** Over any sequence of builds, starting from any file: every name ever recorded is still there and leads to
      the link of the newest build that recorded it. */
  lemma {:induction false} NothingIsLost(file: Option<string>, cuda: string, builds: seq<Build>, name: string)
    requires OneLine(cuda) && AllOneLine(builds)
    ensures LinkFor(Read(Index(file, cuda, builds)), name) ==
            if Newest(builds, name).Some? then Newest(builds, name) else LinkFor(Read(file), name)
    decreases |builds|
  {
    if builds != [] {
      var init, last := builds[..|builds| - 1], builds[|builds| - 1];
      var before := Index(file, cuda, init);
      NothingIsLost(file, cuda, init, name);
      if last.wheels != [] {
        var a := NewLinks(last.tag, last.wheels);
        UpdateReads(before, cuda, last);
        DedupKeepsFirst(a + Read(before), {}, name);
        LinkForConcat(a, Read(before), name);
      }
    }
  }

  /** The wheel of the newest build that had the file, with that build's tag. */
  function NewestWheel(builds: seq<Build>, file: string): Option<(string, Wheel)> {
    if builds == [] then None
    else
      var last := builds[|builds| - 1];
      match FindWheel(last.wheels, file)
      case Some(wheel) => Some((last.tag, wheel))
      case None => NewestWheel(builds[..|builds| - 1], file)
  }

  ghost predicate AllClean(builds: seq<Build>) {
    forall i :: 0 <= i < |builds| ==> CleanBuild(builds[i])
  }

  lemma {:induction false} NewestIsWheel(builds: seq<Build>, file: string)
    requires AllClean(builds)
    ensures Newest(builds, file) ==
            match NewestWheel(builds, file)
            case None => None
            case Some(found) => Some(MakeLink(Url(found.0, found.1), file))
  {
    if builds != [] {
      NewestIsWheel(builds[..|builds| - 1], file);
      NewLinksFacts(builds[|builds| - 1], file);
    }
  }

  lemma {:induction false} NewestWheelName(builds: seq<Build>, file: string)
    ensures NewestWheel(builds, file).Some? ==> NewestWheel(builds, file).value.1.file == file
  {
    if builds != [] {
      NewestWheelName(builds[..|builds| - 1], file);
      FindWheelName(builds[|builds| - 1].wheels, file);
    }
  }

  lemma {:induction false} FindWheelName(wheels: seq<Wheel>, file: string)
    ensures FindWheel(wheels, file).Some? ==> FindWheel(wheels, file).value.file == file
  {
    if wheels != [] {
      FindWheelName(wheels[1..], file);
    }
  }

  /** So every wheel file is found under its own name, with the address and digest of its newest build. */
  lemma {:induction false} NewestWheelIsFound(file: Option<string>, cuda: string, builds: seq<Build>, name: string)
    requires OneLine(cuda) && AllClean(builds) && NewestWheel(builds, name).Some?
    ensures var found := NewestWheel(builds, name).value;
            LinkFor(Read(Index(file, cuda, builds)), name) ==
              Some("<a href=" + "\"" + ("https://github.com/" + "sgl-project/whl/" + "releases/download"
                                         + "/" + found.0 + "/" + name + "#sha256=" + found.1.sha)
                   + "\">" + name + "</a><br>")
  {
    NewestWheelName(builds, name);
    NothingIsLost(file, cuda, builds, name);
    NewestIsWheel(builds, name);
  }

  /** After an update that added wheels, no file name is listed twice. */
  lemma {:induction false} NamesStayUnique(file: Option<string>, cuda: string, builds: seq<Build>)
    requires OneLine(cuda) && AllOneLine(builds)
    requires file == None || exists i :: 0 <= i < |builds| && builds[i].wheels != []
    ensures UniqueNames(Read(Index(file, cuda, builds)))
    decreases |builds|
  {
    if builds != [] {
      var init, last := builds[..|builds| - 1], builds[|builds| - 1];
      if last.wheels == [] {
        if file.Some? {
          var i :| 0 <= i < |builds| && builds[i].wheels != [];
          assert init[i] == builds[i];
        }
        NamesStayUnique(file, cuda, init);
      } else {
        var before := Index(file, cuda, init);
        UpdateReads(before, cuda, last);
        DedupUnique(NewLinks(last.tag, last.wheels) + Read(before), {});
      }
    }
  }
}
