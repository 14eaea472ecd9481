/** The import page's client-side bookkeeping (admin/js/demo-content/page.js):
    the list of steps still to run with its retry counter
    (`ImportActionsObject`), the progress texts it shows, and the loop that
    imports attachments batch by batch. */
module ImportPage {
  import opened Wrappers
  import opened Text
  import ActionBuilder
  import Php

  /** The only step a failed import may be retried from. */
  const ATTACHMENTS := "import_attachments"

  /** How many retries in a row are allowed. */
  const MAX_RETRIES := 3

  /** `ImportActionsObject`: the steps still to run, in order, and the
      number of retries attempted since the last progress. */
  datatype ImportActions = ImportActions(actions: seq<string>, retries: nat)

  /** `new ImportActionsObject(actions)`. */
  function Start(actions: seq<string>): (r: ImportActions)
    ensures r.actions == actions && r.retries == 0
  {
    ImportActions(actions, 0)
  }

  /** The steps of `s` other than `a`, in their order. */
  function Without(s: seq<string>, a: string): (r: seq<string>)
    ensures |r| <= |s|
    ensures forall x :: x in r <==> x in s && x != a
  {
    if s == [] then [] else (if s[0] == a then [] else [s[0]]) + Without(s[1..], a)
  }

  /** Dropping a step that is not there changes nothing. */
  lemma {:induction false} WithoutAbsent(s: seq<string>, a: string)
    requires a !in s
    ensures Without(s, a) == s
  {
    if s != [] {
      WithoutAbsent(s[1..], a);
    }
  }

  /** `done(a)`: every occurrence of `a` leaves the list and the retry
      counter starts over. */
  function Done(o: ImportActions, a: string): (r: ImportActions)
    ensures r.retries == 0
    ensures a !in r.actions
    ensures forall x :: x in r.actions <==> x in o.actions && x != a
    ensures |r.actions| <= |o.actions|
  {
    ImportActions(Without(o.actions, a), 0)
  }

  /** Marking a step done twice is marking it done once. */
  lemma DoneIdempotent(o: ImportActions, a: string)
    ensures Done(Done(o, a), a) == Done(o, a)
  {
    WithoutAbsent(Done(o, a).actions, a);
  }

  /** Marking a step that is not pending done only resets the counter. */
  lemma DoneAbsent(o: ImportActions, a: string)
    requires a !in o.actions
    ensures Done(o, a) == ImportActions(o.actions, 0)
  {
    WithoutAbsent(o.actions, a);
  }

  /** `isActionRetriable`: the first pending step is the attachments step. */
  predicate Retriable(o: ImportActions) {
    |o.actions| > 0 && o.actions[0] == ATTACHMENTS
  }

  /** `attemptRetry`: the counter goes up first; the object comes back (the
      import is run again) only while the counter is at most three and the
      first pending step is the attachments step. */
  function AttemptRetry(o: ImportActions): (r: (ImportActions, bool))
    ensures r.0 == ImportActions(o.actions, o.retries + 1)
    ensures r.1 <==> o.retries + 1 <= MAX_RETRIES && Retriable(o)
  {
    var next := o.(retries := o.retries + 1);
    (next, next.retries <= MAX_RETRIES && Retriable(next))
  }

  /** The outcomes of `n` failures in a row with no progress in between. */
  function Attempts(o: ImportActions, n: nat): (r: seq<bool>)
    ensures |r| == n
    decreases n
  {
    if n == 0 then [] else [AttemptRetry(o).1] + Attempts(AttemptRetry(o).0, n - 1)
  }

  /** The `i`-th retry in a row is granted exactly when fewer than three
      came before it (counting the ones before the run) and the
      attachments step is pending; so at most three in a row are granted. */
  lemma {:induction false} AttemptsGranted(o: ImportActions, n: nat)
    decreases n
    ensures forall i :: 0 <= i < n ==> (Attempts(o, n)[i] <==> o.retries + i + 1 <= MAX_RETRIES && Retriable(o))
    ensures forall i :: 0 <= i < n && i >= MAX_RETRIES ==> !Attempts(o, n)[i]
  {
    if n > 0 {
      var next := AttemptRetry(o).0;
      AttemptsGranted(next, n - 1);
      forall i | 0 < i < n
        ensures Attempts(o, n)[i] <==> o.retries + i + 1 <= MAX_RETRIES && Retriable(o)
      {
        assert Attempts(o, n)[i] == Attempts(next, n - 1)[i - 1];
      }
    }
  }

  /** What the page does once the chain of steps fails. */
  datatype AfterFailure = Rerun(o: ImportActions) | GiveUp(o: ImportActions)

  /** The failure handler of `importDemo`: the remaining steps run again
      when a retry is granted; otherwise the error is shown. */
  function OnFailure(o: ImportActions): (r: AfterFailure)
    ensures r.o == ImportActions(o.actions, o.retries + 1)
    ensures r.Rerun? <==> AttemptRetry(o).1
    ensures r.Rerun? ==> |r.o.actions| > 0 && r.o.actions[0] == ATTACHMENTS
  {
    var (next, granted) := AttemptRetry(o);
    if granted then Rerun(next) else GiveUp(next)
  }

  const ATTACHMENTS_TEXT := "Importing attachments..."

  /** The progress strings of the known steps (the untranslated texts). */
  const FEEDBACK: map<string, string> := map[
    "setup_rewrite_rules" := "Setting up rewrite rules...",
    "download_package" := "Downloading package...",
    "turn_on_design_system" := "Enabling design system...",
    "import_post_types" := "Importing content...",
    "import_attachments" := ATTACHMENTS_TEXT,
    "import_site_logo" := "Importing site logo...",
    "process_block_theme_data" := "Processing imported data...",
    "cleanup" := "Cleaning up...",
    "install_bb_theme" := "Installing Better Block Theme...",
    "download_fse_fonts" := "Downloading fonts...",
    "clear_importer_session" := "Clearing importer session..."
  ]

  /** `getFeedbackText`: the progress string of a known step, the step's
      own name otherwise. */
  function FeedbackText(sub: string): (r: string)
    ensures sub in FEEDBACK ==> r == FEEDBACK[sub]
    ensures sub !in FEEDBACK ==> r == sub
  {
    if sub in FEEDBACK then FEEDBACK[sub] else sub
  }

  /** Every step the server plans has its own progress string, distinct
      from its name. */
  lemma EveryStepHasFeedback(a: ActionBuilder.Action)
    ensures ActionBuilder.Name(a) in FEEDBACK
    ensures FeedbackText(ActionBuilder.Name(a)) != ActionBuilder.Name(a)
  {
  }

  lemma AttachmentsFeedback()
    ensures FeedbackText(ATTACHMENTS) == ATTACHMENTS_TEXT
  {
  }

  /** What an attachments request answers: the counts so far and how many
      are left. */
  datatype Batch = Batch(imported: int, total: int, left: int)

  /** The text shown after a batch: the step's string and "(imported/total)". */
  function ProgressText(b: Batch): (r: string)
    ensures StartsWith(r, ATTACHMENTS_TEXT + " (") && EndsWith(r, ")")
    ensures r[0] == 'I' && r[|r| - 1] == ')'
  {
    ATTACHMENTS_TEXT + " (" + IntText(b.imported) + "/" + IntText(b.total) + ")"
  }

  /** The characters `String.prototype.trim` drops: ECMAScript white space
      (tab, vertical tab, form feed, space, no-break space, the byte order
      mark and the Unicode space separators) and line terminators. */
  const SPACE: set<char> := {'\t', '\U{B}', '\U{C}', ' ', '\U{A0}', '\U{FEFF}', '\U{1680}',
    '\U{2000}', '\U{2001}', '\U{2002}', '\U{2003}', '\U{2004}', '\U{2005}', '\U{2006}',
    '\U{2007}', '\U{2008}', '\U{2009}', '\U{200A}', '\U{202F}', '\U{205F}', '\U{3000}',
    '\n', '\r', '\U{2028}', '\U{2029}'}

  /** The trimmed text of a feedback element built for `text`: a spinner
      (no text), a space, then the text. */
  function Shown(text: string): (r: string)
    ensures text != [] && text[0] !in SPACE && text[|text| - 1] !in SPACE ==> r == text
  {
    var s := " " + text;
    var t := TrimRight(s, SPACE);
    assert text != [] && text[0] !in SPACE && text[|text| - 1] !in SPACE ==> TrimLeft(t, SPACE) == text by {
      if text != [] && text[0] !in SPACE && text[|text| - 1] !in SPACE {
        assert t == s;
        assert t[1..] == text;
      }
    }
    TrimLeft(t, SPACE)
  }

  /** How the attachments loop ends: the step is done, a batch made no
      progress, a request failed, or the replies run out mid-way. */
  datatype LoopEnd =
    | Finished(o: ImportActions)
    | Stalled(o: ImportActions)
    | Failed(o: ImportActions)
    | Waiting(o: ImportActions, text: string)

  /** `importNextAttachmentsBatch` over a sequence of replies (None for a
      failed request), starting from the feedback element showing `text`:
      a batch whose progress text equals the shown text fails the chain;
      otherwise, with attachments left, the retries are reset and the next
      batch is requested under the new text; with none left the step is
      done. */
  function AttachmentsLoop(o: ImportActions, text: string, replies: seq<Option<Batch>>): (r: LoopEnd)
    decreases |replies|
  {
    if replies == [] then Waiting(o, text)
    else match replies[0]
      case None => Failed(o)
      case Some(b) =>
        var progress := ProgressText(b);
        if progress == Shown(text) then Stalled(o)
        else if b.left != 0 then AttachmentsLoop(o.(retries := 0), progress, replies[1..])
        else Finished(Done(o, ATTACHMENTS))
  }

  /** A finished loop leaves the attachments step done and the counter
      reset; no other way out touches the pending steps. */
  lemma {:induction false} LoopOutcome(o: ImportActions, text: string, replies: seq<Option<Batch>>)
    decreases |replies|
    ensures var r := AttachmentsLoop(o, text, replies);
            && (r.Finished? ==> ATTACHMENTS !in r.o.actions && r.o.retries == 0
                                && forall x :: x in r.o.actions <==> x in o.actions && x != ATTACHMENTS)
            && (!r.Finished? ==> r.o.actions == o.actions)
  {
    if replies != [] && replies[0].Some? {
      var b := replies[0].value;
      if ProgressText(b) != Shown(text) && b.left != 0 {
        LoopOutcome(o.(retries := 0), ProgressText(b), replies[1..]);
      }
    }
  }

  /** The "/" in a progress text is the one between the two counts. */
  lemma SplitAtSlash(a: string, b: string, c: string, d: string)
    requires '/' !in a && '/' !in c
    requires a + "/" + b == c + "/" + d
    ensures a == c && b == d
  {
    var s := a + "/" + b;
    assert forall k :: 0 <= k < |a| ==> s[k] == a[k];
    assert forall k :: 0 <= k < |c| ==> s[k] == c[k];
    assert s[|a|] == '/' && s[|c|] == '/';
    assert |a| == |c|;
    assert a == s[..|a|] && c == s[..|c|];
    assert b == s[|a| + 1..] && d == s[|c| + 1..];
  }

  lemma NoSlashInIntText(i: int)
    ensures '/' !in IntText(i) && ')' !in IntText(i)
  {
    var n: nat := if i < 0 then -i else i;
    assert forall k :: 0 <= k < |NatText(n)| ==> IsDigit(NatText(n)[k]);
    if i < 0 {
      assert IntText(i) == "-" + NatText(n);
    }
  }

  /** Two batches read the same exactly when they report the same counts. */
  lemma ProgressTextInjective(a: Batch, b: Batch)
    ensures ProgressText(a) == ProgressText(b) <==> a.imported == b.imported && a.total == b.total
  {
    if ProgressText(a) == ProgressText(b) {
      var p := ATTACHMENTS_TEXT + " (";
      var x := IntText(a.imported) + "/" + IntText(a.total);
      var y := IntText(b.imported) + "/" + IntText(b.total);
      assert ProgressText(a) == p + x + ")" && ProgressText(b) == p + y + ")";
      assert x == (p + x + ")")[|p|..|p| + |x|];
      assert y == (p + y + ")")[|p|..|p| + |y|];
      NoSlashInIntText(a.imported);
      NoSlashInIntText(b.imported);
      SplitAtSlash(IntText(a.imported), IntText(a.total), IntText(b.imported), IntText(b.total));
      Php.IntTextRoundTrip(a.imported);
      Php.IntTextRoundTrip(b.imported);
      Php.IntTextRoundTrip(a.total);
      Php.IntTextRoundTrip(b.total);
    }
  }

  /** Consecutive replies that all arrive and whose counts keep changing. */
  predicate Progressing(replies: seq<Option<Batch>>) {
    && (forall i :: 0 <= i < |replies| ==> replies[i].Some?)
    && (forall i :: 0 < i < |replies| ==>
          (replies[i].value.imported, replies[i].value.total) != (replies[i - 1].value.imported, replies[i - 1].value.total))
  }

  lemma ProgressingTail(replies: seq<Option<Batch>>)
    requires Progressing(replies) && replies != []
    ensures Progressing(replies[1..])
    ensures |replies| > 1 ==> replies[1..][0] == replies[1]
  {
    var t := replies[1..];
    forall i | 0 < i < |t|
      ensures (t[i].value.imported, t[i].value.total) != (t[i - 1].value.imported, t[i - 1].value.total)
    {
      assert t[i] == replies[i + 1] && t[i - 1] == replies[i];
    }
  }

  lemma ShownProgress(b: Batch)
    ensures Shown(ProgressText(b)) == ProgressText(b)
  {
    var t := ProgressText(b);
    assert t[0] !in SPACE && t[|t| - 1] !in SPACE;
  }

  /** While every batch changes the counts, the loop never stalls, as long
      as the first text shown is not itself a progress text. */
  lemma {:induction false} ProgressNeverStalls(o: ImportActions, text: string, replies: seq<Option<Batch>>)
    requires Progressing(replies)
    requires !EndsWith(Shown(text), ")")
    decreases |replies|
    ensures !AttachmentsLoop(o, text, replies).Stalled?
    ensures !AttachmentsLoop(o, text, replies).Failed?
  {
    if replies != [] {
      var b := replies[0].value;
      if ProgressText(b) != Shown(text) && b.left != 0 && |replies| > 1 {
        ProgressingTail(replies);
        ProgressFromBatch(o.(retries := 0), b, replies[1..]);
      }
    }
  }

  /** After a batch, the loop continues without stalling on changing counts. */
  lemma {:induction false} ProgressFromBatch(o: ImportActions, prev: Batch, replies: seq<Option<Batch>>)
    requires Progressing(replies)
    requires replies != [] ==> (replies[0].value.imported, replies[0].value.total) != (prev.imported, prev.total)
    decreases |replies|
    ensures !AttachmentsLoop(o, ProgressText(prev), replies).Stalled?
    ensures !AttachmentsLoop(o, ProgressText(prev), replies).Failed?
  {
    if replies != [] {
      var b := replies[0].value;
      ShownProgress(prev);
      ProgressTextInjective(b, prev);
      if b.left != 0 {
        ProgressingTail(replies);
        ProgressFromBatch(o.(retries := 0), b, replies[1..]);
      }
    }
  }

  /** A batch that repeats the previous counts stalls the loop. */
  lemma RepeatStalls(o: ImportActions, prev: Batch, b: Batch, rest: seq<Option<Batch>>)
    requires b.imported == prev.imported && b.total == prev.total
    ensures AttachmentsLoop(o, ProgressText(prev), [Some(b)] + rest) == Stalled(o)
  {
    ShownProgress(prev);
    ProgressTextInjective(b, prev);
  }

  /** `addAttachmentsImportProcess`: the text the first batch's feedback
      element shows, and the remembered text afterwards. On a retry the
      last text is repeated with the retry count. */
  function FirstText(o: ImportActions, last: string): (r: (string, string))
    ensures o.retries == 0 ==> r.0 == ATTACHMENTS_TEXT
    ensures o.retries != 0 ==> StartsWith(r.0, r.1) && EndsWith(r.0, IntText(o.retries))
    ensures last != "" ==> r.1 == last
    ensures last == "" ==> r.1 == ATTACHMENTS_TEXT
  {
    var remembered := if last == "" then ATTACHMENTS_TEXT else last;
    var text := if o.retries != 0 then remembered + " Retry... " + IntText(o.retries) else remembered;
    (if o.retries == 0 then ATTACHMENTS_TEXT else text, remembered)
  }

  /** Trimming keeps a last character that is not a space. */
  lemma ShownLast(t: string)
    requires t != [] && t[|t| - 1] !in SPACE
    ensures Shown(t) != [] && Shown(t)[|Shown(t)| - 1] == t[|t| - 1]
  {
    var u := TrimRight(" " + t, SPACE);
    assert u == " " + t;
  }

  /** The first text never reads as a progress text, so an attachments run
      whose batches keep changing the counts does not stall. */
  lemma FirstRunProgresses(o: ImportActions, last: string, replies: seq<Option<Batch>>)
    requires Progressing(replies)
    ensures !AttachmentsLoop(o, FirstText(o, last).0, replies).Stalled?
  {
    FirstTextNoCounts(o, last);
    ProgressNeverStalls(o, FirstText(o, last).0, replies);
  }

  /** The first text, as shown, does not end in a closing parenthesis. */
  lemma FirstTextNoCounts(o: ImportActions, last: string)
    ensures !EndsWith(Shown(FirstText(o, last).0), ")")
  {
    var t := FirstText(o, last).0;
    if o.retries == 0 {
      PlainTextNoCounts();
    } else {
      RetryTextNoCounts(t, o.retries);
    }
  }

  lemma PlainTextNoCounts()
    ensures !EndsWith(Shown(ATTACHMENTS_TEXT), ")")
  {
    var t := ATTACHMENTS_TEXT;
    assert t[|t| - 1] == '.';
    LastNotParen(t);
  }

  lemma RetryTextNoCounts(t: string, retries: nat)
    requires retries != 0 && EndsWith(t, IntText(retries))
    ensures !EndsWith(Shown(t), ")")
  {
    var n := NatText(retries);
    assert IntText(retries) == n;
    assert t[|t| - 1] == n[|n| - 1];
    assert IsDigit(n[|n| - 1]);
    LastNotParen(t);
  }

  /** A text whose last character is neither a space nor a closing
      parenthesis does not end in one once shown. */
  lemma LastNotParen(t: string)
    requires t != [] && t[|t| - 1] !in SPACE && t[|t| - 1] != ')'
    ensures !EndsWith(Shown(t), ")")
  {
    ShownLast(t);
  }
}
