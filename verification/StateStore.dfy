/** The bot's memory and its copy on disk (src/state_store.cpp). */
module StateStore {
  import opened Text

  /** Position of a comment version in the listing: (updated_at, id), compared as a tuple. */
  datatype Key = Key(updatedAt: string, id: int)

  predicate KeyLess(a: Key, b: Key) {
    Less(a.updatedAt, b.updatedAt) || (a.updatedAt == b.updatedAt && a.id < b.id)
  }

  predicate KeyAtMost(a: Key, b: Key) {
    !KeyLess(b, a)
  }

  function KeyMax(a: Key, b: Key): Key {
    if KeyLess(a, b) then b else a
  }

  /** The first differing character of the times decides, and then the id. */
  ghost predicate IsLater(a: Key, than: Key) {
    (exists k: nat :: GoesOnAbove(than.updatedAt, a.updatedAt, k)) || (a.updatedAt == than.updatedAt && a.id > than.id)
  }

  lemma KeyLessExactly(a: Key, b: Key)
    ensures KeyLess(a, b) <==> IsLater(b, a)
  {
    LessExactly(a.updatedAt, b.updatedAt);
  }

  /** Times that differ first at one character: the larger character is the later time, whatever follows and whatever the ids. */
  lemma LaterFromOneCharacter(stem: string, c: char, d: char, x: string, y: string, i: int, j: int)
    requires c < d
    ensures var early, late := Key(stem + [c] + x, i), Key(stem + [d] + y, j);
      && KeyMax(early, late) == KeyMax(late, early) == late
      && KeyAtMost(early, late) && !KeyAtMost(late, early)
  {
    var early, late := Key(stem + [c] + x, i), Key(stem + [d] + y, j);
    assert early.updatedAt[..|stem|] == late.updatedAt[..|stem|] == stem;
    assert GoesOnAbove(early.updatedAt, late.updatedAt, |stem|);
    KeyLessExactly(early, late);
    KeyTotal(early, late);
  }

  lemma KeyLessTransitive(a: Key, b: Key, c: Key)
    requires KeyLess(a, b) && KeyLess(b, c)
    ensures KeyLess(a, c)
  {
    if Less(a.updatedAt, b.updatedAt) && Less(b.updatedAt, c.updatedAt) {
      LessTransitive(a.updatedAt, b.updatedAt, c.updatedAt);
    }
  }

  lemma KeyTotal(a: Key, b: Key)
    ensures KeyLess(a, b) || a == b || KeyLess(b, a)
    ensures !(KeyLess(a, b) && KeyLess(b, a))
    ensures !KeyLess(a, a)
  {
    LessTotal(a.updatedAt, b.updatedAt);
    LessIrreflexive(a.updatedAt);
    LessIrreflexive(b.updatedAt);
    if Less(a.updatedAt, b.updatedAt) && Less(b.updatedAt, a.updatedAt) {
      LessTransitive(a.updatedAt, b.updatedAt, a.updatedAt);
    }
  }

  /** The tuple order is a total order; stated for all keys, for use in larger proofs. */
  lemma KeyOrder()
    ensures forall a, b :: KeyLess(a, b) || a == b || KeyLess(b, a)
    ensures forall a, b :: KeyLess(a, b) ==> !KeyLess(b, a)
    ensures forall a :: !KeyLess(a, a)
    ensures forall a, b, c :: KeyLess(a, b) && KeyLess(b, c) ==> KeyLess(a, c)
    ensures forall a, b, c :: KeyLess(a, b) && !KeyLess(c, b) ==> KeyLess(a, c)
    ensures forall a, b, c :: !KeyLess(b, a) && KeyLess(b, c) ==> KeyLess(a, c)
    ensures forall a, b, c :: !KeyLess(b, a) && !KeyLess(c, b) ==> !KeyLess(c, a)
  {
    forall a, b ensures (KeyLess(a, b) || a == b || KeyLess(b, a)) && (KeyLess(a, b) ==> !KeyLess(b, a)) && !KeyLess(a, a) {
      KeyTotal(a, b);
    }
    forall a, b, c | KeyLess(a, b) && KeyLess(b, c) ensures KeyLess(a, c) {
      KeyLessTransitive(a, b, c);
    }
  }

  // --- What is kept -------------------------------------------------------------

  datatype State = State(reviewed: set<int>, handled: set<int>, cursor: Key)

  /** A missing or empty state file. */
  const EMPTY := State({}, {}, Key("", 0))

  /** What a new process starts from. */
  function Loaded(file: Option<State>): State {
    file.GetOr(EMPTY)
  }

  /** `a` is a possible earlier value of `b`: the sets grow and the cursor only moves forward. */
  ghost predicate Earlier(a: State, b: State) {
    a.reviewed <= b.reviewed && a.handled <= b.handled && KeyAtMost(a.cursor, b.cursor)
  }

  lemma EarlierTransitive(a: State, b: State, c: State)
    requires Earlier(a, b) && Earlier(b, c)
    ensures Earlier(a, c)
  {
    KeyOrder();
  }

  /** The state file: replaced as a whole by rename, or left alone. */
  class StateFile {
    var content: Option<State>

    constructor ()
      ensures content == None
    {
      content := None;
    }
  }

  datatype SaveOutcome = Saved | SaveThrew | DiedSaving

  class StateStore {
    const file: StateFile
    var reviewedPrs: set<int>
    var handledComments: set<int>
    var cursorUpdatedAt: string
    var cursorId: int

    function Image(): State
      reads this
    {
      State(reviewedPrs, handledComments, Key(cursorUpdatedAt, cursorId))
    }

    constructor (file: StateFile)
      ensures this.file == file
      ensures Image() == Loaded(file.content)
    {
      this.file := file;
      var image := Loaded(file.content);
      reviewedPrs := image.reviewed;
      handledComments := image.handled;
      cursorUpdatedAt := image.cursor.updatedAt;
      cursorId := image.cursor.id;
    }

    predicate Reviewed(pr: int)
      reads this
    {
      pr in reviewedPrs
    }

    predicate Handled(commentId: int)
      reads this
    {
      commentId in handledComments
    }

    method MarkReviewed(pr: int)
      modifies this
      ensures Image() == old(Image()).(reviewed := old(Image()).reviewed + {pr})
      ensures Earlier(old(Image()), Image())
    {
      reviewedPrs := reviewedPrs + {pr};
      KeyOrder();
    }

    method MarkHandled(commentId: int)
      modifies this
      ensures Image() == old(Image()).(handled := old(Image()).handled + {commentId})
      ensures Earlier(old(Image()), Image())
    {
      handledComments := handledComments + {commentId};
      KeyOrder();
    }

    method AdvanceCursor(updatedAt: string, commentId: int)
      modifies this
      ensures Image() == old(Image()).(cursor := KeyMax(old(Image()).cursor, Key(updatedAt, commentId)))
      ensures IsLater(Key(updatedAt, commentId), old(Image()).cursor) ==> Image().cursor == Key(updatedAt, commentId)
      ensures !IsLater(Key(updatedAt, commentId), old(Image()).cursor) ==> Image() == old(Image())
      ensures Earlier(old(Image()), Image())
    {
      KeyTotal(Key(cursorUpdatedAt, cursorId), Key(updatedAt, commentId));
      KeyLessExactly(Key(cursorUpdatedAt, cursorId), Key(updatedAt, commentId));
      if Less(cursorUpdatedAt, updatedAt) || (updatedAt == cursorUpdatedAt && commentId > cursorId) {
        cursorUpdatedAt := updatedAt;
        cursorId := commentId;
      }
    }

    /** True iff the key is at or before the cursor. */
    method IsAtOrBeforeCursor(updatedAt: string, commentId: int) returns (r: bool)
      ensures r <==> KeyAtMost(Key(updatedAt, commentId), Image().cursor)
      ensures r <==> !IsLater(Key(updatedAt, commentId), Image().cursor)
    {
      KeyLessExactly(Key(cursorUpdatedAt, cursorId), Key(updatedAt, commentId));
      KeyTotal(Key(cursorUpdatedAt, cursorId), Key(updatedAt, commentId));
      if Less(updatedAt, cursorUpdatedAt) { return true; }
      if Less(cursorUpdatedAt, updatedAt) { return false; }
      LessTotal(updatedAt, cursorUpdatedAt);
      return commentId <= cursorId;
    }

    /** Seeds an empty cursor, so that a first run does not answer the repository's old comments. */
    method InitCursorIfEmpty(now: string) returns (seeded: bool)
      modifies this
      ensures seeded <==> old(Image()).cursor.updatedAt == [] && now != []
      ensures Image() == if seeded then old(Image()).(cursor := Key(now, 0)) else old(Image())
      ensures Earlier(old(Image()), Image())
    {
      KeyOrder();
      if cursorUpdatedAt != [] { return false; }
      if now == [] { return false; }
      cursorUpdatedAt := now;
      cursorId := 0;
      return true;
    }

    /** The file becomes the memory, or stays as it was: it is never seen half written. */
    method Save() returns (r: SaveOutcome)
      modifies file
      ensures file.content == Some(Image()) || file.content == old(file.content)
      ensures r.Saved? ==> file.content == Some(Image())
      ensures r.SaveThrew? ==> file.content == old(file.content)
    {
      if * {
        file.content := Some(Image());
        r := Saved;
      } else {
        r := SaveThrew;
      }
      if * { r := DiedSaving; }
    }
  }

  // --- The cursor over a whole sequence of calls ---------------------------------

  /** The cursor after AdvanceCursor has been called for each key in turn. */
  function CursorAfter(start: Key, keys: seq<Key>): Key {
    if keys == [] then start else KeyMax(CursorAfter(start, keys[..|keys| - 1]), keys[|keys| - 1])
  }

  lemma {:induction false} CursorIsTheMaximum(start: Key, keys: seq<Key>)
    ensures CursorAfter(start, keys) == start || CursorAfter(start, keys) in keys
    ensures KeyAtMost(start, CursorAfter(start, keys))
    ensures forall k :: k in keys ==> KeyAtMost(k, CursorAfter(start, keys))
    ensures forall k :: k == start || k in keys ==> !IsLater(k, CursorAfter(start, keys))
  {
    KeyOrder();
    forall k | k == start || k in keys ensures IsLater(k, CursorAfter(start, keys)) <==> KeyLess(CursorAfter(start, keys), k) {
      KeyLessExactly(CursorAfter(start, keys), k);
    }
    if keys != [] {
      var init, last := keys[..|keys| - 1], keys[|keys| - 1];
      CursorIsTheMaximum(start, init);
      assert keys == init + [last];
    }
  }

  /** The calls may come in any order, and any number of times: only the set of keys matters. */
  lemma CursorIgnoresOrder(start: Key, keys: seq<Key>, others: seq<Key>)
    requires forall k :: k in keys <==> k in others
    ensures CursorAfter(start, keys) == CursorAfter(start, others)
  {
    CursorIsTheMaximum(start, keys);
    CursorIsTheMaximum(start, others);
    KeyTotal(CursorAfter(start, keys), CursorAfter(start, others));
  }
}
