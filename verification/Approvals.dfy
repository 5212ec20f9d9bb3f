/** What one look at a pull request's reviews comes to on the auto path (src/watcher.cpp:121-244). */
module Approvals {
  import opened Text
  import opened StateStore
  import opened Protocol

  /**
   Since position `n`, the lookup of an approver was refused, and everyone who approved before is a
   stranger. The path gives up there, without looking at later approvals.
   */
  ghost predicate ApprovalRefused(w: World, n: int, pr: int) {
    exists reviews, i, k :: ReviewsAt(w, n, pr, reviews, i) && RefusedAt(w, i, reviews, k)
  }

  ghost predicate RefusedAt(w: World, n: int, reviews: seq<Review>, k: int) {
    && 0 <= k < |reviews| && reviews[k].state == "APPROVED" && !PlainLogin(reviews[k].login)
    && StrangersBefore(w, n, reviews, k)
  }

  /** Since position `n`, everyone who approved was called a stranger. */
  ghost predicate NoCollaboratorApproved(w: World, n: int, pr: int) {
    exists reviews, i :: ReviewsAt(w, n, pr, reviews, i) && StrangersBefore(w, i, reviews, |reviews|)
  }

  /** Reviewed, or GitHub has said since position `n` why not. */
  ghost predicate DealtWith(w: World, n: int, st: State, pr: int) {
    pr in st.reviewed || NoCollaboratorApproved(w, n, pr) || ApprovalRefused(w, n, pr)
  }

  lemma DealtWithPersists(w: World, w': World, n: int, m: int, st: State, st': State, pr: int)
    requires w.events <= w'.events && st.reviewed <= st'.reviewed && DealtWith(w, n, st, pr) && m <= n
    ensures DealtWith(w', m, st', pr)
  {
    if NoCollaboratorApproved(w, n, pr) {
      var reviews: seq<Review>, i: int :| ReviewsAt(w, n, pr, reviews, i) && StrangersBefore(w, i, reviews, |reviews|);
      AtPersists(w, w', i, ReviewsAnswer(pr, reviews));
      StrangersPersist(w, w', i, reviews, |reviews|);
      assert ReviewsAt(w', m, pr, reviews, i);
    }
    if ApprovalRefused(w, n, pr) {
      var reviews: seq<Review>, i: int, k: int :| ReviewsAt(w, n, pr, reviews, i) && RefusedAt(w, i, reviews, k);
      AtPersists(w, w', i, ReviewsAnswer(pr, reviews));
      StrangersPersist(w, w', i, reviews, k);
      assert ReviewsAt(w', m, pr, reviews, i) && RefusedAt(w', i, reviews, k);
    }
  }

  /** Each of these pull requests was dealt with since position `n`, except where a call about it failed. */
  ghost predicate AutoComplete(w: World, n: int, st: State, prs: seq<int>, failed: set<int>) {
    forall pr :: pr in prs ==> pr in failed || DealtWith(w, n, st, pr)
  }

  lemma AutoCompletePersists(w: World, w': World, n: int, st: State, st': State, prs: seq<int>, failed: set<int>)
    requires w.events <= w'.events && st.reviewed <= st'.reviewed && AutoComplete(w, n, st, prs, failed)
    ensures AutoComplete(w', n, st', prs, failed)
  {
    forall pr | pr in prs && pr !in failed ensures DealtWith(w', n, st', pr) { DealtWithPersists(w, w', n, n, st, st', pr); }
  }

  lemma AutoCompleteStep(w: World, w': World, n: int, m: int, st: State, st': State, prs: seq<int>, i: nat, failed: set<int>, bad: bool)
    requires w.events <= w'.events && i < |prs| && n <= m && st.reviewed <= st'.reviewed
    requires AutoComplete(w, n, st, prs[..i], failed)
    requires bad || DealtWith(w', m, st', prs[i])
    ensures AutoComplete(w', n, st', prs[..i + 1], if bad then failed + {prs[i]} else failed)
  {
    assert prs[..i + 1] == prs[..i] + [prs[i]];
    AutoCompletePersists(w, w', n, st, st', prs[..i], failed);
    if !bad { DealtWithPersists(w', w', m, n, st', st', prs[i]); }
  }

  /** All that the auto path may have changed: entries of the reviewed set that were approved since position `n`. */
  ghost predicate AutoProgress(w: World, n: int, st0: State, st: State, prs: seq<int>) {
    && st == st0.(reviewed := st.reviewed) && st0.reviewed <= st.reviewed
    && (forall pr :: pr in st.reviewed && pr !in st0.reviewed ==> pr in prs && Approved(w, n, pr))
  }

  /** The memory is as it was, or has one more reviewed pull request, approved since position `n`. */
  ghost predicate AutoStep(w: World, n: int, pr: int, before: State, after: State) {
    after == before || (after == before.(reviewed := before.reviewed + {pr}) && Approved(w, n, pr))
  }

  lemma AutoProgressStep(w: World, w': World, n: int, m: int, st0: State, st: State, st': State, prs: seq<int>, pr: int)
    requires w.events <= w'.events && n <= m && AutoProgress(w, n, st0, st, prs) && pr in prs && AutoStep(w', m, pr, st, st')
    ensures AutoProgress(w', n, st0, st', prs)
  {
    forall p | p in st'.reviewed && p !in st0.reviewed ensures Approved(w', n, p) {
      if p in st.reviewed { ApprovedPersists(w, w', n, n, p); } else { ApprovedPersists(w', w', m, n, p); }
    }
  }

  /** The auto path after the first `i` of the open pull requests that GitHub listed since position `n`. */
  ghost predicate AutoDone(w: World, n: int, st0: State, st: State, prs: seq<int>, i: nat, failed: set<int>) {
    && Told(w, n, OpenPrsAnswer(prs)) && AutoProgress(w, n, st0, st, prs)
    && i <= |prs| && AutoComplete(w, n, st, prs[..i], failed)
  }

  /** Looking at one more of them. */
  lemma AutoMoved(w: World, w': World, n: int, m: int, st0: State, st: State, st': State, prs: seq<int>, i: nat, failed: set<int>)
    requires w.events <= w'.events && n <= m && AutoDone(w, n, st0, st, prs, i, failed) && i < |prs|
    requires AutoStep(w', m, prs[i], st, st')
    ensures Told(w', n, OpenPrsAnswer(prs)) && AutoProgress(w', n, st0, st', prs)
  {
    ToldPersists(w, w', n, n, OpenPrsAnswer(prs));
    AutoProgressStep(w, w', n, m, st0, st, st', prs, prs[i]);
  }

  lemma AutoNext(w: World, w': World, n: int, m: int, st0: State, st: State, st': State, prs: seq<int>, i: nat, failed: set<int>, bad: bool)
    requires w.events <= w'.events && n <= m && AutoDone(w, n, st0, st, prs, i, failed) && i < |prs|
    requires AutoStep(w', m, prs[i], st, st') && (bad || DealtWith(w', m, st', prs[i]))
    ensures AutoDone(w', n, st0, st', prs, i + 1, if bad then failed + {prs[i]} else failed)
  {
    AutoMoved(w, w', n, m, st0, st, st', prs, i, failed);
    AutoCompleteStep(w, w', n, m, st, st', prs, i, failed, bad);
  }

  /** Since position `n` nobody was called a collaborator. */
  predicate NoYes(w: World, n: int) {
    forall i :: n <= i < |w.events| && 0 <= i && w.events[i].CollaboratorAnswer? ==> !w.events[i].yes
  }

  lemma NoYesNoApproval(w: World, n: int, pr: int)
    requires NoYes(w, n)
    ensures !Approved(w, n, pr)
  {
    forall reviews, i, k ensures !ApprovedAt(w, n, pr, reviews, i, k) {}
  }

  /** Where a refused approver comes first, no later approval counts, whoever gave it. */
  lemma RefusalHides(w: World, n: int, reviews: seq<Review>, k: int, j: int)
    requires AnswersPlain(w) && RefusedAt(w, n, reviews, k) && k <= j
    ensures !Counts(w, n, reviews, j)
  {
    LookedUpArePlain(w);
  }

  lemma LookedUpArePlain(w: World)
    requires AnswersPlain(w)
    ensures forall n: int, login, yes :: Told(w, n, CollaboratorAnswer(login, yes)) ==> PlainLogin(login)
  {
  }
}
