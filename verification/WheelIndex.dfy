/** The nightly wheel index: one line per wheel in a text file, read back, merged with the wheels of the
    current build and written out again. */
module WheelIndex {
  import opened Seqs

  // ----- Lines of a text file -----

  predicate OneLine(s: string) {
    '\n' !in s && '\r' !in s
  }

  /** Reading in text mode turns "\r\n" and "\r" into "\n". */
  function Universal(s: string): string {
    if s == [] then []
    else if s[0] != '\r' then [s[0]] + Universal(s[1..])
    else if |s| > 1 && s[1] == '\n' then "\n" + Universal(s[2..])
    else "\n" + Universal(s[1..])
  }

  /** `content.split("\n")`. */
  function Split(s: string): (lines: seq<string>)
    ensures |lines| >= 1
  {
    if s == [] then [[]]
    else
      var rest := Split(s[1..]);
      if s[0] == '\n' then [[]] + rest else [[s[0]] + rest[0]] + rest[1..]
  }

  /** `"\n".join(lines)`. */
  function Join(lines: seq<string>): string {
    if lines == [] then []
    else if |lines| == 1 then lines[0]
    else lines[0] + "\n" + Join(lines[1..])
  }

  lemma {:induction false} UniversalIdentity(s: string)
    requires '\r' !in s
    ensures Universal(s) == s
  {
    if s != [] {
      UniversalIdentity(s[1..]);
    }
  }

  lemma {:induction false} SplitAtBreak(a: string, b: string)
    ensures Split(a + "\n" + b) == Split(a) + Split(b)
  {
    if a == [] {
      assert a + "\n" + b == ['\n'] + b;
      assert (['\n'] + b)[1..] == b;
    } else {
      var all, rest := a + "\n" + b, a[1..] + "\n" + b;
      assert all[1..] == rest && all[0] == a[0];
      SplitAtBreak(a[1..], b);
      SplitFirst(all, a, Split(b));
    }
  }

  /** What comes behind does not matter to the first line. */
  lemma {:induction false} SplitFirst(all: string, a: string, rest: seq<string>)
    requires all != [] && a != [] && all[0] == a[0] && Split(all[1..]) == Split(a[1..]) + rest
    ensures Split(all) == Split(a) + rest
  {
    var lines := Split(a[1..]);
    if a[0] == '\n' {
      ConcatAssoc([[]], lines, rest);
    } else {
      assert (lines + rest)[0] == lines[0] && (lines + rest)[1..] == lines[1..] + rest;
      ConcatAssoc([[a[0]] + lines[0]], lines[1..], rest);
    }
  }

  lemma {:induction false} SplitOneLine(s: string)
    requires '\n' !in s
    ensures Split(s) == [s]
  {
    if s != [] {
      SplitOneLine(s[1..]);
      assert s == [s[0]] + s[1..];
    }
  }

  lemma {:induction false} SplitJoin(lines: seq<string>)
    requires lines != [] && forall i :: 0 <= i < |lines| ==> '\n' !in lines[i]
    ensures Split(Join(lines)) == lines
  {
    SplitOneLine(lines[0]);
    if |lines| > 1 {
      SplitJoin(lines[1..]);
      SplitAtBreak(lines[0], Join(lines[1..]));
      assert lines == [lines[0]] + lines[1..];
    } else {
      assert lines == [lines[0]];
    }
  }

  // ----- Links -----

  const PREFIX := "<a href="

  predicate IsLinkLine(s: string) {
    |PREFIX| <= |s| && s[..|PREFIX|] == PREFIX
  }

  function LinkLines(lines: seq<string>): seq<string> {
    if lines == [] then []
    else (if IsLinkLine(lines[0]) then [lines[0]] else []) + LinkLines(lines[1..])
  }

  lemma {:induction false} LinkLinesConcat(a: seq<string>, b: seq<string>)
    ensures LinkLines(a + b) == LinkLines(a) + LinkLines(b)
  {
    if a == [] {
      assert a + b == b;
    } else {
      assert (a + b)[1..] == a[1..] + b && (a + b)[0] == a[0];
      LinkLinesConcat(a[1..], b);
      ConcatAssoc([a[0]], LinkLines(a[1..]), LinkLines(b));
    }
  }

  lemma {:induction false} LinkLinesAll(lines: seq<string>)
    requires forall i :: 0 <= i < |lines| ==> IsLinkLine(lines[i])
    ensures LinkLines(lines) == lines
  {
    if lines != [] {
      LinkLinesAll(lines[1..]);
    }
  }

  /** A line as the program writes it: a link, and only one line. */
  predicate IsLink(s: string) {
    IsLinkLine(s) && OneLine(s)
  }

  // ----- Writing and reading the index -----

  function Title(cuda: string): string {
    "<h1>SGLang Nightly Wheels (" + cuda + ")</h1>"
  }

  const DOCTYPE := "<!DOCTYPE html>"

  function Write(cuda: string, links: seq<string>): string {
    DOCTYPE + "\n" + Title(cuda) + "\n" + Join(links) + "\n"
  }

  /** The links of an index file; none if there is no file yet. */
  function Read(file: Option<string>): seq<string> {
    match file
    case None => []
    case Some(content) => LinkLines(Split(Universal(content)))
  }

  lemma {:induction false} JoinOneLine(links: seq<string>)
    requires forall i :: 0 <= i < |links| ==> '\r' !in links[i]
    ensures '\r' !in Join(links)
  {
    if |links| > 1 {
      JoinOneLine(links[1..]);
    }
  }

  lemma {:induction false} BodyLinks(links: seq<string>)
    requires forall i :: 0 <= i < |links| ==> IsLink(links[i])
    ensures LinkLines(Split(Join(links) + "\n" + [])) == links
  {
    SplitAtBreak(Join(links), []);
    LinkLinesConcat(Split(Join(links)), [[]]);
    if links == [] {
      assert Split(Join(links)) == [[]];
    } else {
      SplitJoin(links);
      LinkLinesAll(links);
    }
  }

  lemma {:induction false} TitleIsNoLink(cuda: string)
    requires OneLine(cuda)
    ensures OneLine(Title(cuda)) && !IsLinkLine(Title(cuda))
  {
    assert Title(cuda)[..|PREFIX|][1] == 'h' && PREFIX[1] == 'a';
  }

  /** A line that is no link contributes nothing. */
  lemma {:induction false} SkipLine(line: string, rest: string)
    requires OneLine(line) && !IsLinkLine(line)
    ensures LinkLines(Split(line + "\n" + rest)) == LinkLines(Split(rest))
  {
    SplitAtBreak(line, rest);
    SplitOneLine(line);
    LinkLinesConcat([line], Split(rest));
    assert LinkLines([line]) == [];
  }

  /** Reading back a written index returns exactly the links that were written. */
  lemma {:induction false} RoundTrip(cuda: string, links: seq<string>)
    requires OneLine(cuda) && forall i :: 0 <= i < |links| ==> IsLink(links[i])
    ensures Read(Some(Write(cuda, links))) == links
  {
    var body := Join(links) + "\n" + [];
    TitleIsNoLink(cuda);
    JoinOneLine(links);
    FileShape(cuda, links);
    UniversalIdentity(Write(cuda, links));
    SkipLine(DOCTYPE, Title(cuda) + "\n" + body);
    SkipLine(Title(cuda), body);
    BodyLinks(links);
  }

  lemma {:induction false} FileShape(cuda: string, links: seq<string>)
    ensures Write(cuda, links) == DOCTYPE + "\n" + (Title(cuda) + "\n" + (Join(links) + "\n" + []))
  {
  }

  /** The written file line by line: the head, the title for the CUDA version, the links, and nothing after. */
  lemma {:induction false} WrittenLines(cuda: string, links: seq<string>)
    requires OneLine(cuda) && links != [] && forall i :: 0 <= i < |links| ==> IsLink(links[i])
    ensures Split(Write(cuda, links))
         == ["<!DOCTYPE html>"] + (["<h1>SGLang Nightly Wheels (" + cuda + ")</h1>"] + (links + [""]))
  {
    var body := Join(links) + "\n" + [];
    TitleIsNoLink(cuda);
    assert OneLine(DOCTYPE);
    FileShape(cuda, links);
    SplitAtBreak(DOCTYPE, Title(cuda) + "\n" + body);
    SplitAtBreak(Title(cuda), body);
    SplitAtBreak(Join(links), []);
    SplitOneLine(DOCTYPE);
    SplitOneLine(Title(cuda));
    SplitOneLine([]);
    SplitJoin(links);
  }

  // ----- The file name in a link: the pattern `>([^<]+\.whl)</a>` -----

  const SUFFIX := ".whl"
  const CLOSE := "</a>"

  function NextOpen(s: string, i: nat): (j: nat)
    requires i <= |s|
    ensures i <= j <= |s| && '<' !in s[i..j] && (j < |s| ==> s[j] == '<')
    decreases |s| - i
  {
    if i == |s| || s[i] == '<' then i
    else
      var j := NextOpen(s, i + 1);
      assert s[i..j] == [s[i]] + s[i + 1..j];
      j
  }

  predicate EndsIn(s: string, suffix: string) {
    |suffix| <= |s| && s[|s| - |suffix|..] == suffix
  }

  /** The match that starts at a `>`: everything up to the next `<`, which must open `</a>`. */
  function MatchAt(s: string, i: nat): Option<string>
    requires i < |s|
  {
    if s[i] != '>' then None
    else
      var j := NextOpen(s, i + 1);
      var name := s[i + 1..j];
      if |name| > |SUFFIX| && EndsIn(name, SUFFIX) && j + |CLOSE| <= |s| && s[j..j + |CLOSE|] == CLOSE
      then Some(name) else None
  }

  /** `re.search`: the leftmost match. */
  function NameFrom(s: string, i: nat): Option<string>
    requires i <= |s|
    decreases |s| - i
  {
    if i == |s| then None
    else if MatchAt(s, i).Some? then MatchAt(s, i)
    else NameFrom(s, i + 1)
  }

  function Name(link: string): Option<string> {
    NameFrom(link, 0)
  }

  function MakeLink(url: string, file: string): string {
    PREFIX + "\"" + url + "\">" + file + "</a><br>"
  }

  /** Text that cannot be mistaken for markup or for several lines. */
  predicate Clean(s: string) {
    OneLine(s) && '<' !in s && '>' !in s
  }

  predicate WheelName(file: string) {
    Clean(file) && |file| > |SUFFIX| && EndsIn(file, SUFFIX)
  }

  lemma {:induction false} SkipTo(s: string, i: nat, k: nat)
    requires i <= k <= |s| && '>' !in s[i..k]
    ensures NameFrom(s, i) == NameFrom(s, k)
    decreases k - i
  {
    if i < k {
      assert s[i..k] == [s[i]] + s[i + 1..k];
      SkipTo(s, i + 1, k);
    }
  }

  lemma {:induction false} NextOpenIs(s: string, i: nat, j: nat)
    requires i <= j < |s| && '<' !in s[i..j] && s[j] == '<'
    ensures NextOpen(s, i) == j
    decreases j - i
  {
    if i < j {
      assert s[i..j] == [s[i]] + s[i + 1..j];
      NextOpenIs(s, i + 1, j);
    }
  }

  lemma {:induction false} NameBetween(before: string, file: string, after: string)
    requires '>' !in before && '<' !in file && |file| > |SUFFIX| && EndsIn(file, SUFFIX)
    requires |CLOSE| <= |after| && after[..|CLOSE|] == CLOSE
    ensures Name(before + ">" + file + after) == Some(file)
  {
    var s := before + ">" + file + after;
    var k := |before|;
    var j := k + 1 + |file|;
    assert s[0..k] == before;
    SkipTo(s, 0, k);
    assert s[k + 1..j] == file && s[j..] == after;
    assert s[j] == after[0] == CLOSE[0];
    NextOpenIs(s, k + 1, j);
    assert s[j..j + |CLOSE|] == s[j..][..|CLOSE|];
  }

  /** The program finds the file name again in the links it makes. */
  lemma {:induction false} NameOfMade(url: string, file: string)
    requires Clean(url) && WheelName(file)
    ensures Name(MakeLink(url, file)) == Some(file) && IsLink(MakeLink(url, file))
  {
    var before, after := PREFIX + "\"" + url + "\"", "</a><br>";
    assert '>' !in before by {
      assert '>' !in PREFIX && '>' !in "\"";
    }
    assert after[..|CLOSE|] == CLOSE;
    NameBetween(before, file, after);
    MadeShape(PREFIX + "\"", url, file);
    assert MakeLink(url, file)[..|PREFIX|] == PREFIX;
  }

  lemma {:induction false} MadeShape(a: string, url: string, file: string)
    ensures a + url + "\">" + file + "</a><br>" == (a + url + "\"") + ">" + file + "</a><br>"
  {
  }

  // ----- Which file names survive -----

  lemma {:induction false} NameShape(s: string, i: nat)
    requires i <= |s|
    ensures NameFrom(s, i).Some? ==> '<' !in NameFrom(s, i).value && |NameFrom(s, i).value| > |SUFFIX|
    decreases |s| - i
  {
    if i < |s| {
      NameShape(s, i + 1);
    }
  }

  function NextGreater(s: string, i: nat): (k: nat)
    requires i <= |s|
    ensures i <= k <= |s| && '>' !in s[i..k] && (k < |s| ==> s[k] == '>')
    decreases |s| - i
  {
    if i == |s| || s[i] == '>' then i
    else
      var k := NextGreater(s, i + 1);
      assert s[i..k] == [s[i]] + s[i + 1..k];
      k
  }

  /** A `>` inside the address moves the match to the left: the name comes out too long. */
  lemma {:induction false} NameTooLong(before: string, rest: string, file: string)
    requires '>' !in before && '<' !in rest && '<' !in file && EndsIn(file, SUFFIX)
    ensures Name(before + ">" + rest + ">" + file + "</a><br>") == Some(rest + ">" + file)
  {
    var name, after := rest + ">" + file, "</a><br>";
    assert name[|name| - |SUFFIX|..] == file[|file| - |SUFFIX|..];
    assert after[..|CLOSE|] == CLOSE;
    NameBetween(before, name, after);
    assert before + ">" + rest + ">" + file + after == before + ">" + name + after;
  }

  lemma {:induction false} GreaterInAddress(url: string, file: string)
    requires '>' in url && '<' !in url && '<' !in file && EndsIn(file, SUFFIX)
    ensures Name(MakeLink(url, file)) != Some(file)
  {
    var k := NextGreater(url, 0);
    var before, rest := PREFIX + "\"" + url[..k], url[k + 1..] + "\"";
    assert url[0..k] == url[..k];
    assert url[0..|url|] == url;
    assert url == url[..k] + ">" + url[k + 1..];
    assert '>' !in before by {
      assert '>' !in PREFIX && '>' !in "\"";
    }
    NameTooLong(before, rest, file);
    AddressShape(PREFIX + "\"", url[..k], url[k + 1..], file);
    assert |rest + ">" + file| > |file|;
  }

  lemma {:induction false} AddressShape(p: string, a: string, b: string, file: string)
    ensures p + (a + ">" + b) + "\">" + file + "</a><br>" == (p + a) + ">" + (b + "\"") + ">" + file + "</a><br>"
  {
  }

  /** With markup only possible in the file name, which the address repeats, the program finds the name again
      if and only if the name has no markup and something before its suffix. */
  lemma {:induction false} NameFoundExactlyWhenPlain(a: string, file: string, b: string)
    requires Clean(a) && Clean(b) && EndsIn(file, SUFFIX)
    ensures Name(MakeLink(a + file + b, file)) == Some(file) <==> '<' !in file && '>' !in file && |file| > |SUFFIX|
  {
    var url := a + file + b;
    NameShape(MakeLink(url, file), 0);
    if '<' !in file && '>' in file {
      GreaterInAddress(url, file);
    } else if '<' !in file && |file| > |SUFFIX| {
      var before, after := PREFIX + "\"" + url + "\"", "</a><br>";
      assert '>' !in before by {
        assert '>' !in PREFIX && '>' !in "\"";
      }
      assert after[..|CLOSE|] == CLOSE;
      NameBetween(before, file, after);
      MadeShape(PREFIX + "\"", url, file);
    }
  }

  /** A name with a `>` in it is filed under another name. */
  lemma {:induction false} MarkupNameIsMisfiled()
    ensures Name(MakeLink("/" + "a>b.whl" + "#", "a>b.whl")) != Some("a>b.whl")
  {
    assert "a>b.whl"[1] == '>';
    assert Clean("/") && Clean("#");
    NameFoundExactlyWhenPlain("/", "a>b.whl", "#");
  }
}
