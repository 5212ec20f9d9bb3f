/** What the bot posts under its marker (src/watcher.cpp:403-415, 444-476, 486). */
module Reports {
  import opened Text
  import opened Markers
  import opened Trim
  import opened Context

  /** An em dash as the three bytes of its UTF-8 encoding. */
  function Dash(): string { "\U{E2}\U{80}\U{94}" }

  function FetchWords(cfg: Config): seq<string> {
    ["(diff exceeds ", "MAX_DIFF_FETCH_", "BYTES=", Decimal(cfg.maxDiffFetchBytes), " ", Dash(), " skipped)\n"]
  }

  function NothingFitsWords(cfg: Config): seq<string> {
    ["(diff exceeds ", "MAX_DIFF_BYTES=", Decimal(cfg.maxDiffBytes), " and no complete ", "file section ",
     "fits the budget ", Dash(), " skipped)\n"]
  }

  function TrimWords(cfg: Config, trimmed: TrimResult): seq<string> {
    ["\n\n_solvcon-bot: ", "diff exceeded ", "MAX_DIFF_BYTES=", Decimal(cfg.maxDiffBytes), "; reviewed ",
     Decimal(trimmed.kept), " file section(s), ", "omitted ", Decimal(|trimmed.omitted|), "._\n"]
  }

  function FetchNotice(cfg: Config): string { Concat(FetchWords(cfg)) }
  function NothingFitsNotice(cfg: Config): string { Concat(NothingFitsWords(cfg)) }
  function TrimNote(cfg: Config, trimmed: TrimResult): string { Concat(TrimWords(cfg, trimmed)) }

  // The bot's own words hold no '>', so they hold no marker key.

  lemma FetchNoticeIsPlain(cfg: Config)
    ensures '>' !in FetchNotice(cfg)
  {
    assert '>' !in Decimal(cfg.maxDiffFetchBytes);
    ConcatLacks(FetchWords(cfg), '>');
  }

  lemma NothingFitsNoticeIsPlain(cfg: Config)
    ensures '>' !in NothingFitsNotice(cfg)
  {
    assert '>' !in Decimal(cfg.maxDiffBytes);
    ConcatLacks(NothingFitsWords(cfg), '>');
  }

  lemma TrimNoteIsPlain(cfg: Config, trimmed: TrimResult)
    ensures '>' !in TrimNote(cfg, trimmed)
  {
    assert '>' !in Decimal(cfg.maxDiffBytes) && '>' !in Decimal(trimmed.kept) && '>' !in Decimal(|trimmed.omitted|);
    ConcatLacks(TrimWords(cfg, trimmed), '>');
  }

  predicate NeedsTrimming(cfg: Config, diff: DiffResult) {
    |diff.body| > cfg.maxDiffBytes
  }

  /** Some part of the diff can be reviewed. */
  predicate GoesToReviewer(cfg: Config, diff: DiffResult) {
    !diff.truncated && (NeedsTrimming(cfg, diff) ==> TrimOf(diff.body, cfg.maxDiffBytes).kept > 0)
  }

  function DiffToReview(cfg: Config, diff: DiffResult): string {
    if NeedsTrimming(cfg, diff) then TrimOf(diff.body, cfg.maxDiffBytes).diff else diff.body
  }

  function OmittedFromReview(cfg: Config, diff: DiffResult): seq<string> {
    if NeedsTrimming(cfg, diff) then TrimOf(diff.body, cfg.maxDiffBytes).omitted else []
  }

  /** The text of the comment, after the marker and a blank line. */
  function ReportText(cfg: Config, diff: DiffResult, output: string): string {
    if diff.truncated then FetchNotice(cfg)
    else if !NeedsTrimming(cfg, diff) then output
    else if TrimOf(diff.body, cfg.maxDiffBytes).kept == 0 then NothingFitsNotice(cfg)
    else output + TrimNote(cfg, TrimOf(diff.body, cfg.maxDiffBytes))
  }

  /** A report contains a marker key exactly if the reviewer's part of it does. */
  lemma KeyInReport(cfg: Config, diff: DiffResult, output: string, t: Trigger)
    ensures Contains(ReportText(cfg, diff, output), BuildMarkerKey(t))
       <==> GoesToReviewer(cfg, diff) && Contains(output, BuildMarkerKey(t))
  {
    if diff.truncated {
      FetchNoticeIsPlain(cfg);
      PlainHasNoKey(FetchNotice(cfg), t);
    } else if NeedsTrimming(cfg, diff) {
      KeyInTrimmedReport(cfg, diff, output, t);
    }
  }

  lemma KeyInTrimmedReport(cfg: Config, diff: DiffResult, output: string, t: Trigger)
    requires !diff.truncated && NeedsTrimming(cfg, diff)
    ensures Contains(ReportText(cfg, diff, output), BuildMarkerKey(t))
       <==> GoesToReviewer(cfg, diff) && Contains(output, BuildMarkerKey(t))
  {
    var trimmed := TrimOf(diff.body, cfg.maxDiffBytes);
    if trimmed.kept == 0 {
      NothingFitsNoticeIsPlain(cfg);
      PlainHasNoKey(NothingFitsNotice(cfg), t);
    } else {
      TrimNoteIsPlain(cfg, trimmed);
      NoteAddsNoKey(output, TrimNote(cfg, trimmed), t);
    }
  }

  lemma PlainHasNoKey(text: string, t: Trigger)
    requires '>' !in text
    ensures !Contains(text, BuildMarkerKey(t))
  {
    OneClosingBracket("", t);
    NoteAddsNoKey("", text, t);
    assert "" + text == text;
  }

  // --- What the notes say -----------------------------------------------------------------

  /** The words one after the other, up to the `k`-th. */
  function Upto(words: seq<string>, k: nat): string
    requires k <= |words|
  {
    if k == 0 then "" else Upto(words, k - 1) + words[k - 1]
  }

  lemma {:induction false} ConcatIsUpto(words: seq<string>, k: nat)
    requires k <= |words|
    ensures Concat(words[..k]) == Upto(words, k)
  {
    if k > 0 {
      ConcatIsUpto(words, k - 1);
      assert words[..k] == words[..k - 1] + [words[k - 1]];
      ConcatSnoc(words[..k - 1], words[k - 1]);
    }
  }

  lemma UptoSix(w: seq<string>)
    requires |w| >= 6
    ensures Upto(w, 6) == w[0] + w[1] + w[2] + w[3] + w[4] + w[5]
  {
    assert Upto(w, 1) == w[0];
    assert Upto(w, 3) == w[0] + w[1] + w[2];
    assert Upto(w, 5) == w[0] + w[1] + w[2] + w[3] + w[4];
  }

  lemma AllWords(w: seq<string>)
    requires 6 <= |w|
    ensures |w| == 7 ==> Concat(w) == w[0] + w[1] + w[2] + w[3] + w[4] + w[5] + w[6]
    ensures |w| == 8 ==> Concat(w) == w[0] + w[1] + w[2] + w[3] + w[4] + w[5] + w[6] + w[7]
    ensures |w| == 10 ==> Concat(w) == w[0] + w[1] + w[2] + w[3] + w[4] + w[5] + w[6] + w[7] + w[8] + w[9]
  {
    ConcatIsUpto(w, |w|);
    assert w[..|w|] == w;
    UptoSix(w);
    if |w| >= 8 { assert Upto(w, 8) == Upto(w, 6) + w[6] + w[7]; }
    if |w| == 10 { assert Upto(w, 10) == Upto(w, 8) + w[8] + w[9]; }
  }

  /** The note under a trimmed review gives the budget, then how many sections were reviewed, then how many were not. */
  lemma TrimNoteCounts(cfg: Config, trimmed: TrimResult)
    ensures TrimNote(cfg, trimmed)
         == "\n\n_solvcon-bot: " + "diff exceeded " + "MAX_DIFF_BYTES=" + Decimal(cfg.maxDiffBytes) + "; reviewed "
          + Decimal(trimmed.kept) + " file section(s), " + "omitted " + Decimal(|trimmed.omitted|) + "._\n"
  {
    AllWords(TrimWords(cfg, trimmed));
  }

  /** The notices name the limit that was exceeded. */
  lemma NoticesGiveTheLimit(cfg: Config)
    ensures FetchNotice(cfg)
         == "(diff exceeds " + "MAX_DIFF_FETCH_" + "BYTES=" + Decimal(cfg.maxDiffFetchBytes) + " " + "\U{E2}\U{80}\U{94}" + " skipped)\n"
    ensures NothingFitsNotice(cfg)
         == "(diff exceeds " + "MAX_DIFF_BYTES=" + Decimal(cfg.maxDiffBytes) + " and no complete " + "file section "
          + "fits the budget " + "\U{E2}\U{80}\U{94}" + " skipped)\n"
  {
    AllWords(FetchWords(cfg));
    AllWords(NothingFitsWords(cfg));
  }
}
