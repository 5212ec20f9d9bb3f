/**
  The hidden marker that every posted comment starts with, and the version-agnostic key
  that the watcher looks for before it posts (src/watcher.cpp:44-78).
 */
module Markers {
  import opened Text

  datatype Source = Auto | Ping

  /** What caused a review. The watcher uses (Auto, pr, None) and (Ping, pr, Some(comment)). */
  datatype Trigger = Trigger(source: Source, pr: int, comment: Option<int>)

  function SourceText(s: Source): string {
    match s case Auto => "auto" case Ping => "ping"
  }

  function TriggerText(comment: Option<int>): string {
    match comment case Some(id) => Decimal(id) case None => "first-approval"
  }

  function BuildMarkerKey(t: Trigger): string {
    "source=" + SourceText(t.source) + " pr=" + Decimal(t.pr) + " trigger=" + TriggerText(t.comment) + " -->"
  }

  function BuildMarker(version: string, t: Trigger): string {
    "<!-- solvcon-bot/" + version
    + " source=" + SourceText(t.source) + " pr=" + Decimal(t.pr) + " trigger=" + TriggerText(t.comment) + " -->"
  }

  predicate BodyHasMarkerKey(body: string, t: Trigger) {
    Contains(body, BuildMarkerKey(t))
  }

  /** What the bot posts: the marker, a blank line and the text. */
  function Posting(version: string, t: Trigger, text: string): string {
    BuildMarker(version, t) + "\n\n" + text
  }

  /** A body that was posted for `t` by some version of the bot. */
  ghost predicate PostedFor(body: string, t: Trigger) {
    exists version :: StartsWithMarker(body, version, t)
  }

  ghost predicate StartsWithMarker(body: string, version: string, t: Trigger) {
    '>' !in version && BuildMarker(version, t) <= body
  }

  lemma TriggerTextInjective(a: Option<int>, b: Option<int>)
    requires TriggerText(a) == TriggerText(b)
    ensures a == b
  {
    assert forall o: Option<int> :: TriggerText(o)[0] == 'f' <==> o.None?;
    if a.Some? {
      DecimalInjective(a.value, b.value);
    }
  }

  lemma MarkerEndsWithKey(version: string, t: Trigger)
    ensures BuildMarker(version, t) == "<!-- solvcon-bot/" + version + " " + BuildMarkerKey(t)
    ensures |BuildMarkerKey(t)| >= 15
  {
    assert " source=" == " " + "source=";
  }

  /** Only the last character of a marker, and of a key, is a '>'. */
  lemma OneClosingBracket(version: string, t: Trigger)
    requires '>' !in version
    ensures '>' !in BuildMarkerKey(t)[..|BuildMarkerKey(t)| - 1] && BuildMarkerKey(t)[|BuildMarkerKey(t)| - 1] == '>'
    ensures '>' !in BuildMarker(version, t)[..|BuildMarker(version, t)| - 1]
    ensures BuildMarker(version, t)[|BuildMarker(version, t)| - 1] == '>'
  {
    var key := BuildMarkerKey(t);
    var stem := "source=" + SourceText(t.source) + " pr=" + Decimal(t.pr) + " trigger=" + TriggerText(t.comment) + " --";
    assert key == stem + ">";
    assert '>' !in Decimal(t.pr) && '>' !in TriggerText(t.comment);
    assert key[..|key| - 1] == stem;
    MarkerEndsWithKey(version, t);
    var marker := BuildMarker(version, t);
    var head := "<!-- solvcon-bot/" + version + " ";
    assert marker[..|marker| - 1] == head + stem;
  }

  function SourcePart(u: string, t: Trigger): string { u + "source=" + SourceText(t.source) }
  function PrPart(t: Trigger): string { "pr=" + Decimal(t.pr) }
  function TriggerPart(t: Trigger): string { "trigger=" + TriggerText(t.comment) }

  lemma KeyBySpaces(u: string, t: Trigger)
    ensures u + BuildMarkerKey(t) == SourcePart(u, t) + [' '] + PrPart(t) + [' '] + TriggerPart(t) + [' '] + "-->"
  {
    assert BuildMarkerKey(t)
        == "source=" + SourceText(t.source) + [' '] + PrPart(t) + [' '] + TriggerPart(t) + [' '] + "-->";
  }

  /** Two texts that end in keys are equal only if the triggers are. */
  lemma KeysAtTheEndAgree(u: string, a: Trigger, w: string, b: Trigger)
    requires u + BuildMarkerKey(a) == w + BuildMarkerKey(b)
    ensures a == b
  {
    var srcA, prA, trA := SourcePart(u, a), PrPart(a), TriggerPart(a);
    var srcB, prB, trB := SourcePart(w, b), PrPart(b), TriggerPart(b);
    KeyBySpaces(u, a);
    KeyBySpaces(w, b);
    SplitAtLast(srcA + [' '] + prA + [' '] + trA, "-->", srcB + [' '] + prB + [' '] + trB, "-->", ' ');
    SplitAtLast(srcA + [' '] + prA, trA, srcB + [' '] + prB, trB, ' ');
    SplitAtLast(srcA, prA, srcB, prB, ' ');
    PartsDecide(u, a, w, b);
  }

  lemma PartsDecide(u: string, a: Trigger, w: string, b: Trigger)
    requires SourcePart(u, a) == SourcePart(w, b) && PrPart(a) == PrPart(b) && TriggerPart(a) == TriggerPart(b)
    ensures a == b
  {
    assert TriggerPart(a)[8..] == TriggerText(a.comment) && TriggerPart(b)[8..] == TriggerText(b.comment);
    TriggerTextInjective(a.comment, b.comment);
    assert PrPart(a)[3..] == Decimal(a.pr) && PrPart(b)[3..] == Decimal(b.pr);
    DecimalInjective(a.pr, b.pr);
    var s := SourcePart(u, a);
    assert s[|s| - 1] == SourceText(a.source)[3] && s[|s| - 1] == SourceText(b.source)[3];
  }

  /** A marker carries its own key and no other: the dedupe test cannot confuse two triggers. */
  lemma MarkersDiscriminate(version: string, a: Trigger, b: Trigger)
    requires '>' !in version
    ensures BodyHasMarkerKey(BuildMarker(version, a), b) <==> a == b
  {
    if a == b {
      MarkerHasKey(version, a);
    }
    if BodyHasMarkerKey(BuildMarker(version, a), b) {
      KeyInMarker(version, a, b);
    }
  }

  lemma MarkerHasKey(version: string, t: Trigger)
    ensures BodyHasMarkerKey(BuildMarker(version, t), t)
  {
    MarkerEndsWithKey(version, t);
    var marker, key := BuildMarker(version, t), BuildMarkerKey(t);
    assert StandsAt(marker, |marker| - |key|, key);
  }

  lemma KeyInMarker(version: string, a: Trigger, b: Trigger)
    requires '>' !in version && BodyHasMarkerKey(BuildMarker(version, a), b)
    ensures a == b
  {
    var marker, key := BuildMarker(version, a), BuildMarkerKey(b);
    var i :| 0 <= i <= |marker| - |key| && StandsAt(marker, i, key);
    OneClosingBracket(version, a);
    OneClosingBracket("", b);
    StandsOnlyAtTheEnd(marker, i, key, '>');
    MarkerEndsWithKey(version, a);
    KeysAtTheEndAgree("<!-- solvcon-bot/" + version + " ", a, marker[..i], b);
  }

  /** A body posted for `t` carries the key of `t`, whatever follows the marker. */
  lemma PostedForHasKey(body: string, t: Trigger)
    requires PostedFor(body, t)
    ensures BodyHasMarkerKey(body, t)
  {
    var version :| StartsWithMarker(body, version, t);
    MarkerHasKey(version, t);
    var marker, key := BuildMarker(version, t), BuildMarkerKey(t);
    var i :| 0 <= i <= |marker| - |key| && StandsAt(marker, i, key);
    assert StandsAt(body, i, key);
  }

  // --- What else a body may carry --------------------------------------------------

  /**
   A posted body carries the key of its own trigger, and of any other exactly if the text quotes
   it: the test looks at the whole body, not at the marker only.
   */
  lemma PostingCarriesExactly(version: string, a: Trigger, text: string, b: Trigger)
    requires '>' !in version
    ensures BodyHasMarkerKey(Posting(version, a, text), b) <==> a == b || Contains(text, BuildMarkerKey(b))
  {
    OneClosingBracket(version, a);
    OneClosingBracket("", b);
    MarkersDiscriminate(version, a, b);
    KeyAcross(BuildMarker(version, a), "\n\n", text, BuildMarkerKey(b));
  }

  /** In a text of three parts, a word that can neither cross the first seam nor begin in the middle. */
  lemma KeyAcross(marker: string, sep: string, text: string, key: string)
    requires marker != [] && key != [] && marker[|marker| - 1] == '>' && '>' !in key[..|key| - 1]
    requires key[0] !in sep
    ensures Contains(marker + sep + text, key) <==> Contains(marker, key) || Contains(text, key)
  {
    var body := marker + sep + text;
    if Contains(marker, key) {
      var i :| 0 <= i <= |marker| - |key| && StandsAt(marker, i, key);
      assert StandsAt(body, i, key);
    }
    if Contains(text, key) {
      var i :| 0 <= i <= |text| - |key| && StandsAt(text, i, key);
      PartAt(marker + sep, text, i, key);
    }
    if Contains(body, key) {
      var i :| 0 <= i <= |body| - |key| && StandsAt(body, i, key);
      KeyAvoidsSeams(marker, sep, text, key, i);
      if i + |key| <= |marker| {
        assert marker[i..i + |key|] == body[i..i + |key|];
        assert StandsAt(marker, i, key);
      } else {
        PartAt(marker + sep, text, i - |marker + sep|, key);
      }
    }
  }

  lemma KeyAvoidsSeams(marker: string, sep: string, text: string, key: string, i: nat)
    requires marker != [] && key != [] && marker[|marker| - 1] == '>' && '>' !in key[..|key| - 1]
    requires key[0] !in sep
    requires StandsAt(marker + sep + text, i, key)
    ensures i + |key| <= |marker| || |marker + sep| <= i
  {
    var body := marker + sep + text;
    assert forall k :: i <= k < i + |key| ==> body[k] == body[i..i + |key|][k - i] == key[k - i];
    assert forall k :: 0 <= k < |key| - 1 ==> key[k] == key[..|key| - 1][k];
    assert forall k :: |marker| <= k < |marker + sep| ==> body[k] == sep[k - |marker|];
    assert body[|marker| - 1] == '>' && body[i] == key[0];
  }

  lemma PartAt(head: string, text: string, i: nat, key: string)
    requires i <= |text|
    ensures StandsAt(head + text, |head| + i, key) <==> StandsAt(text, i, key)
  {
    if i + |key| <= |text| {
      assert (head + text)[|head| + i..|head| + i + |key|] == text[i..i + |key|];
    }
  }

  /** A note without a '>' behind a text adds no key to it. */
  lemma NoteAddsNoKey(text: string, note: string, t: Trigger)
    requires '>' !in note
    ensures Contains(text + note, BuildMarkerKey(t)) <==> Contains(text, BuildMarkerKey(t))
  {
    OneClosingBracket("", t);
    TailWithout(text, note, BuildMarkerKey(t), '>');
  }

  lemma TailWithout(text: string, note: string, key: string, last: char)
    requires key != [] && key[|key| - 1] == last && last !in note
    ensures Contains(text + note, key) <==> Contains(text, key)
  {
    var all := text + note;
    if Contains(text, key) {
      var i :| 0 <= i <= |text| - |key| && StandsAt(text, i, key);
      assert StandsAt(all, i, key);
    }
    if Contains(all, key) {
      var i :| 0 <= i <= |all| - |key| && StandsAt(all, i, key);
      assert all[i + |key| - 1] == key[|key| - 1] == last;
      assert i + |key| <= |text|;
      assert text[i..i + |key|] == all[i..i + |key|];
      assert StandsAt(text, i, key);
    }
  }

  lemma PostingIsFor(version: string, t: Trigger, text: string)
    requires '>' !in version
    ensures PostedFor(Posting(version, t, text), t)
  {
    assert BuildMarker(version, t) <= Posting(version, t, text);
    assert StartsWithMarker(Posting(version, t, text), version, t);
  }

  /** A body was posted for at most one trigger, even across versions of the bot. */
  lemma PostedForOneTrigger(body: string, a: Trigger, b: Trigger)
    requires PostedFor(body, a) && PostedFor(body, b)
    ensures a == b
  {
    var v :| StartsWithMarker(body, v, a);
    var w :| StartsWithMarker(body, w, b);
    var m, n := BuildMarker(v, a), BuildMarker(w, b);
    OneClosingBracket(v, a);
    OneClosingBracket(w, b);
    assert body[|m| - 1] == '>' && body[|n| - 1] == '>';
    assert forall j :: 0 <= j < |n| - 1 ==> body[j] == n[..|n| - 1][j];
    assert forall j :: 0 <= j < |m| - 1 ==> body[j] == m[..|m| - 1][j];
    assert m == n;
    MarkersDiscriminate(v, a, a);
    MarkersDiscriminate(w, b, a);
  }

  /** The markers, letter by letter. */
  lemma PingMarkerText(version: string, pr: int, id: int)
    ensures BuildMarker(version, Trigger(Ping, pr, Some(id)))
         == "<!-- solvcon-bot/" + version + " source=ping pr=" + Decimal(pr) + " trigger=" + Decimal(id) + " -->"
  {
    JoinThree("<!-- solvcon-bot/" + version, " source=", "ping", " pr=");
    assert " source=" + "ping" + " pr=" == " source=ping pr=";
  }

  lemma AutoMarkerText(version: string, pr: int)
    ensures BuildMarker(version, Trigger(Auto, pr, None))
         == "<!-- solvcon-bot/" + version + " source=auto pr=" + Decimal(pr) + " trigger=first-approval -->"
  {
    JoinThree("<!-- solvcon-bot/" + version, " source=", "auto", " pr=");
    assert " source=" + "auto" + " pr=" == " source=auto pr=";
    JoinThree("<!-- solvcon-bot/" + version + " source=auto pr=" + Decimal(pr), " trigger=", "first-approval", " -->");
    assert " trigger=" + "first-approval" + " -->" == " trigger=first-approval -->";
  }

  lemma JoinThree(head: string, a: string, b: string, c: string)
    ensures head + a + b + c == head + (a + b + c)
  {
  }
}
