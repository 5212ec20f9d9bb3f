/** The rel="next" URL of a Link header, and its path on the API host (src/github_client.cpp:28-57, 291-307). */
module LinkHeader {
  import opened Text

  /** The first offset of `c` at or after `from`, or the length. */
  function IndexOf(s: string, c: char, from: nat): (i: nat)
    requires from <= |s|
    ensures from <= i <= |s| && (i < |s| ==> s[i] == c)
    decreases |s| - from
  {
    if from == |s| || s[from] == c then from else IndexOf(s, c, from + 1)
  }

  predicate MarksNext(params: string) {
    Contains(params, "rel=\"next\"") || Contains(params, "rel=next")
  }

  /** The URL of the first link from `pos` on whose parameters satisfy `marks`. */
  function MarkedUrl(header: string, pos: nat, marks: string -> bool): Option<string>
    requires pos <= |header|
    decreases |header| - pos
  {
    var lt := IndexOf(header, '<', pos);
    if lt == |header| then None
    else
      var gt := IndexOf(header, '>', lt + 1);
      if gt == |header| then None
      else
        var comma := IndexOf(header, ',', gt);
        if marks(header[gt + 1..comma]) then Some(header[lt + 1..gt])
        else if comma == |header| then None
        else MarkedUrl(header, comma + 1, marks)
  }

  method FindMarked(header: string, marks: string -> bool) returns (r: Option<string>)
    ensures r == MarkedUrl(header, 0, marks)
  {
    var pos := 0;
    while pos < |header|
      invariant 0 <= pos <= |header|
      invariant MarkedUrl(header, pos, marks) == MarkedUrl(header, 0, marks)
    {
      var lt := IndexOf(header, '<', pos);
      if lt == |header| { break; }
      var gt := IndexOf(header, '>', lt + 1);
      if gt == |header| { break; }
      var comma := IndexOf(header, ',', gt);
      if marks(header[gt + 1..comma]) { return Some(header[lt + 1..gt]); }
      if comma == |header| { break; }
      pos := comma + 1;
    }
    return None;
  }

  method ParseLinkNext(header: string) returns (r: Option<string>)
    ensures r == MarkedUrl(header, 0, MarksNext)
  {
    r := FindMarked(header, MarksNext);
  }

  function PublicOrigin(): string { "https://api.github.com" }

  function StripOrigin(url: string, base: string): string {
    if base <= url then url[|base|..]
    else if PublicOrigin() <= url then url[|PublicOrigin()|..]
    else url
  }

  /** The path of the next page; None on the last page. */
  function NextPath(header: string, base: string): Option<string> {
    match MarkedUrl(header, 0, MarksNext) case Some(url) => Some(StripOrigin(url, base)) case None => None
  }

  // --- Reading a rendered header ----------------------------------------------------

  /** One link: text before the bracket, the URL, and the parameters up to the next comma. */
  datatype Link = Link(gap: string, url: string, params: string)

  predicate PlainLink(l: Link) {
    '<' !in l.gap && '>' !in l.url && ',' !in l.params
  }

  function RenderLink(l: Link): string {
    l.gap + "<" + l.url + ">" + l.params
  }

  function RenderLinks(links: seq<Link>): string {
    if links == [] then [] else if |links| == 1 then RenderLink(links[0]) else RenderLink(links[0]) + "," + RenderLinks(links[1..])
  }

  function FirstMarked(links: seq<Link>, marks: string -> bool): Option<string> {
    if links == [] then None else if marks(links[0].params) then Some(links[0].url) else FirstMarked(links[1..], marks)
  }

  lemma {:induction false} IndexIs(s: string, c: char, from: nat, i: nat)
    requires from <= i <= |s| && (i < |s| ==> s[i] == c)
    requires forall k :: from <= k < i ==> s[k] != c
    ensures IndexOf(s, c, from) == i
    decreases i - from
  {
    if from < i { IndexIs(s, c, from + 1, i); }
  }

  /** A link stands in `s` from `pos` to `end`, where the next one begins or the text ends. */
  ghost predicate LinkStands(s: string, pos: nat, end: nat, l: Link) {
    pos <= end <= |s| && s[pos..end] == RenderLink(l) && (end < |s| ==> s[end] == ',')
  }

  lemma LinkFound(s: string, pos: nat, end: nat, l: Link)
    requires PlainLink(l) && LinkStands(s, pos, end, l)
    ensures var lt := pos + |l.gap|;
      var gt := lt + 1 + |l.url|;
      && gt < end <= |s| && IndexOf(s, '<', pos) == lt && IndexOf(s, '>', lt + 1) == gt && IndexOf(s, ',', gt) == end
      && s[lt + 1..gt] == l.url && s[gt + 1..end] == l.params
  {
    var lt := pos + |l.gap|;
    var gt := lt + 1 + |l.url|;
    LinkParts(s, pos, end, l);
    assert forall k :: pos <= k < lt ==> s[k] == s[pos..lt][k - pos];
    assert forall k :: lt < k < gt ==> s[k] == s[lt + 1..gt][k - lt - 1];
    assert forall k :: gt < k < end ==> s[k] == s[gt + 1..end][k - gt - 1];
    BracketsFound(s, pos, lt, gt, end);
  }

  lemma LinkParts(s: string, pos: nat, end: nat, l: Link)
    requires LinkStands(s, pos, end, l)
    ensures var lt := pos + |l.gap|;
      var gt := lt + 1 + |l.url|;
      && gt < end && s[lt] == '<' && s[gt] == '>'
      && s[pos..lt] == l.gap && s[lt + 1..gt] == l.url && s[gt + 1..end] == l.params
  {
    var r := RenderLink(l);
    assert forall k :: pos <= k < end ==> s[k] == s[pos..end][k - pos] == r[k - pos];
  }

  lemma BracketsFound(s: string, pos: nat, lt: nat, gt: nat, end: nat)
    requires pos <= lt < gt < end <= |s| && s[lt] == '<' && s[gt] == '>' && (end < |s| ==> s[end] == ',')
    requires forall k :: pos <= k < lt ==> s[k] != '<'
    requires forall k :: lt < k < gt ==> s[k] != '>'
    requires forall k :: gt < k < end ==> s[k] != ','
    ensures IndexOf(s, '<', pos) == lt && IndexOf(s, '>', lt + 1) == gt && IndexOf(s, ',', gt) == end
  {
    IndexIs(s, '<', pos, lt);
    IndexIs(s, '>', lt + 1, gt);
    IndexIs(s, ',', gt, end);
  }

  lemma OneLink(s: string, pos: nat, end: nat, l: Link, marks: string -> bool)
    requires PlainLink(l) && LinkStands(s, pos, end, l)
    ensures MarkedUrl(s, pos, marks)
         == if marks(l.params) then Some(l.url) else if end == |s| then None else MarkedUrl(s, end + 1, marks)
  {
    LinkFound(s, pos, end, l);
  }

  lemma LinksStand(s: string, pos: nat, links: seq<Link>) returns (end: nat)
    requires pos <= |s| && links != [] && s[pos..] == RenderLinks(links)
    ensures LinkStands(s, pos, end, links[0])
    ensures |links| == 1 ==> end == |s|
    ensures |links| > 1 ==> end < |s| && s[end + 1..] == RenderLinks(links[1..])
  {
    var first := RenderLink(links[0]);
    end := pos + |first|;
    var tail := s[pos..];
    assert tail[..|first|] == first && s[pos..end] == tail[..|first|];
    if |links| > 1 {
      assert tail == first + ("," + RenderLinks(links[1..]));
      assert s[end] == tail[|first|] == ',';
      assert s[end + 1..] == tail[|first| + 1..] == RenderLinks(links[1..]);
    }
  }

  /** The parser returns the URL of the first marked link, whatever surrounds it. */
  lemma {:induction false} MarkedUrlOfRendered(s: string, pos: nat, links: seq<Link>, marks: string -> bool)
    requires forall l :: l in links ==> PlainLink(l)
    requires pos <= |s| && s[pos..] == RenderLinks(links)
    ensures MarkedUrl(s, pos, marks) == FirstMarked(links, marks)
    decreases |links|
  {
    if links == [] {
      NoLinkAtTheEnd(s, pos, marks);
    } else {
      var end := LinksStand(s, pos, links);
      OneLink(s, pos, end, links[0], marks);
      FirstMarkedNext(links, marks);
      if |links| > 1 { MarkedUrlOfRendered(s, end + 1, links[1..], marks); }
    }
  }

  lemma NoLinkAtTheEnd(s: string, pos: nat, marks: string -> bool)
    requires pos <= |s| && s[pos..] == []
    ensures MarkedUrl(s, pos, marks) == None
  {
    assert pos == |s|;
  }

  lemma FirstMarkedNext(links: seq<Link>, marks: string -> bool)
    requires links != []
    ensures FirstMarked(links, marks)
         == if marks(links[0].params) then Some(links[0].url) else if |links| == 1 then None else FirstMarked(links[1..], marks)
  {
  }

  /** In particular, the next page's URL is read from a Link header in any order of its links. */
  lemma NextUrlOfRendered(links: seq<Link>)
    requires forall l :: l in links ==> PlainLink(l)
    ensures MarkedUrl(RenderLinks(links), 0, MarksNext) == FirstMarked(links, MarksNext)
  {
    MarkedUrlOfRendered(RenderLinks(links), 0, links, MarksNext);
  }

  /**
   The next path is empty exactly when the next URL is a bare origin, or empty itself. The plain
   walk takes that for a page to ask for, the conditional walk for the end.
   */
  lemma BareOriginIsEmptyPath(links: seq<Link>, base: string)
    requires forall l :: l in links ==> PlainLink(l)
    ensures NextPath(RenderLinks(links), base) == Some("")
       <==> FirstMarked(links, MarksNext).Some? && BareOrigin(FirstMarked(links, MarksNext).value, base)
  {
    NextUrlOfRendered(links);
    var next := FirstMarked(links, MarksNext);
    if next.Some? { StripsToNothing(next.value, base); }
  }

  lemma StripsToNothing(url: string, base: string)
    ensures StripOrigin(url, base) == "" <==> BareOrigin(url, base)
  {
    if base <= url {
      assert url[|base|..] == "" ==> url == base;
    } else if PublicOrigin() <= url {
      assert url[|PublicOrigin()|..] == "" ==> url == PublicOrigin();
    }
  }

  predicate BareOrigin(url: string, base: string) {
    url == base || url == "" || (url == PublicOrigin() && !(base <= url))
  }

  // --- What counts as next ------------------------------------------------------------

  /** A word with an equals sign stands in a text with a single one only where the signs meet. */
  lemma OnlyAtItsSign(s: string, sign: nat, word: string, k: nat)
    requires sign < |s| && k < |word| && word[k] == '=' && forall i :: 0 <= i < |s| && s[i] == '=' ==> i == sign
    ensures Contains(s, word) <==> StandsAt(s, sign - k, word)
  {
    forall i: nat | StandsAt(s, i, word) ensures i == sign - k {
      assert s[i + k] == s[i..i + |word|][k];
    }
  }

  lemma WordBehind(head: string, rel: string, tail: string, word: string)
    ensures StandsAt(head + rel + tail, |head|, word) <==> word <= rel + tail
  {
    var s := head + rel + tail;
    assert s[|head|..] == rel + tail;
    if |head| + |word| <= |s| { assert s[|head|..|head| + |word|] == (rel + tail)[..|word|]; }
  }

  /** A quoted relation counts exactly if it is "next". */
  lemma QuotedRelDecides(rel: string)
    requires '"' !in rel && '=' !in rel
    ensures MarksNext("; rel=\"" + rel + "\"") <==> rel == "next"
  {
    var s := "; rel=\"" + rel + "\"";
    assert forall i :: 0 <= i < |rel| ==> s[i + 7] == rel[i];
    OnlyAtItsSign(s, 5, "rel=\"next\"", 3);
    OnlyAtItsSign(s, 5, "rel=next", 3);
    WordBehind("; ", "rel=\"" + rel, "\"", "rel=\"next\"");
    WordBehind("; ", "rel=\"" + rel, "\"", "rel=next");
    assert s == "; " + ("rel=\"" + rel) + "\"";
    QuotedWord(rel);
  }

  lemma QuotedWord(rel: string)
    requires '"' !in rel
    ensures "rel=\"next\"" <= "rel=\"" + rel + "\"" <==> rel == "next"
    ensures !("rel=next" <= "rel=\"" + rel + "\"")
  {
    var t, word := "rel=\"" + rel + "\"", "rel=\"next\"";
    assert t[4] == '"' && "rel=next"[4] == 'n';
    assert forall i :: 0 <= i < |rel| ==> t[i + 5] == rel[i];
    if word <= t {
      assert t[9] == word[9] == '"';
      assert |rel| == 4;
      assert rel == t[5..9] == word[5..9];
    }
  }

  /** An unquoted one counts exactly if it starts with "next". */
  lemma UnquotedRelDecides(rel: string)
    requires '"' !in rel && '=' !in rel
    ensures MarksNext("; rel=" + rel) <==> "next" <= rel
  {
    var s := "; rel=" + rel;
    assert forall i :: 0 <= i < |rel| ==> s[i + 6] == rel[i];
    OnlyAtItsSign(s, 5, "rel=\"next\"", 3);
    OnlyAtItsSign(s, 5, "rel=next", 3);
    WordBehind("; ", "rel=" + rel, "", "rel=\"next\"");
    WordBehind("; ", "rel=" + rel, "", "rel=next");
    assert s == "; " + ("rel=" + rel) + "";
    UnquotedWord(rel);
  }

  lemma UnquotedWord(rel: string)
    requires '"' !in rel
    ensures "rel=next" <= "rel=" + rel + "" <==> "next" <= rel
    ensures !("rel=\"next\"" <= "rel=" + rel + "")
  {
    var t := "rel=" + rel + "";
    assert t[4..] == rel;
    assert |t| > 4 ==> t[4] == rel[0] && rel[0] in rel;
    assert "rel=\"next\""[4] == '"';
    if "rel=next" <= t { assert t[4..8] == rel[..4] == "rel=next"[4..8]; }
    if "next" <= rel { assert t[..8] == "rel=" + rel[..4]; }
  }

  /** The path is what follows the configured origin, or else the public one; any other URL is kept. */
  lemma StripsTheOrigin(path: string, base: string)
    ensures StripOrigin(base + path, base) == path
    ensures !(base <= "https://api.github.com" + path) ==> StripOrigin("https://api.github.com" + path, base) == path
    ensures !(base <= path) && !("https://api.github.com" <= path) ==> StripOrigin(path, base) == path
  {
    assert (base + path)[|base|..] == path && (PublicOrigin() + path)[|PublicOrigin()|..] == path;
  }
}
