/** The sender rules the viewer applies to mail events: inbox events are
    filtered by their sender, sent events by their receivers. */
module TimelineFilter {
  import opened Wrappers
  import opened Text

  /** One object of a loaded sent or inbox JSON file, as far as the viewer
      uses it. `receivers` is None when the field is not an array; `time` is
      the millisecond value `new Date(e.timestamp).getTime()` yields. */
  datatype MailEvent = MailEvent(
    sender: Option<string>,
    receivers: Option<seq<string>>,
    body: Option<string>,
    time: int)

  /** What the render loop does with one event: skip it, or draw it, boosted
      or not. */
  datatype Verdict = Skipped | Shown(boosted: bool)

  /** Inbox rule: `sender = e.sender?.trim().toLowerCase()`; skip when the
      sender is non-empty and excluded; boost when it is non-empty and marked. */
  function InboxVerdict(e: MailEvent, excluded: set<string>, marked: set<string>): (v: Verdict)
  {
    match e.sender
    case None => Shown(false)
    case Some(s) =>
      var n := Normalize(s);
      if n != "" && n in excluded then Skipped
      else Shown(n != "" && n in marked)
  }

  /** Some receiver, trimmed and lower-cased, belongs to `names`. */
  predicate AnyIn(receivers: seq<string>, names: set<string>) {
    AnyInPrefix(receivers, |receivers|, names)
  }

  /** Some of the first `n` receivers, normalised, belongs to `names`. */
  predicate AnyInPrefix(receivers: seq<string>, n: nat, names: set<string>)
    requires n <= |receivers|
  {
    exists i :: 0 <= i < n && Normalize(receivers[i]) in names
  }

  /** Sent rule, stated without the loop: skipped iff some receiver is
      excluded; otherwise boosted iff some receiver is marked. A `receivers`
      that is not an array never skips and never boosts. */
  function SentVerdict(e: MailEvent, excluded: set<string>, marked: set<string>): Verdict {
    match e.receivers
    case None => Shown(false)
    case Some(rs) => if AnyIn(rs, excluded) then Skipped else Shown(AnyIn(rs, marked))
  }

  /** The receiver scan of the sent loop: `isExcluded`/`isMarked` flags and a
      `break` at the first excluded receiver. */
  method ScanReceivers(receivers: seq<string>, excluded: set<string>, marked: set<string>)
    returns (isExcluded: bool, isMarked: bool)
    ensures isExcluded <==> AnyIn(receivers, excluded)
    ensures !isExcluded ==> (isMarked <==> AnyIn(receivers, marked))
    ensures isMarked ==> AnyIn(receivers, marked)
    ensures isExcluded ==>
      exists k :: 0 <= k < |receivers| && Normalize(receivers[k]) in excluded
        && !AnyInPrefix(receivers, k, excluded)
        && (isMarked <==> AnyInPrefix(receivers, k, marked))
  {
    isExcluded, isMarked := false, false;
    var i := 0;
    while i < |receivers|
      invariant 0 <= i <= |receivers|
      invariant !AnyInPrefix(receivers, i, excluded)
      invariant isMarked <==> AnyInPrefix(receivers, i, marked)
    {
      var clean := Normalize(receivers[i]);
      AnyInPrefixStep(receivers, i, excluded);
      AnyInPrefixStep(receivers, i, marked);
      if clean in excluded {
        isExcluded := true;
        break;
      }
      if clean in marked {
        isMarked := true;
      }
      i := i + 1;
    }
  }

  lemma AnyInPrefixStep(receivers: seq<string>, i: nat, names: set<string>)
    requires i < |receivers|
    ensures AnyInPrefix(receivers, i + 1, names)
        <==> AnyInPrefix(receivers, i, names) || Normalize(receivers[i]) in names
  {
  }

  /** The verdict of the sent loop for one event (lines 207-223). */
  method SentEventVerdict(e: MailEvent, excluded: set<string>, marked: set<string>) returns (v: Verdict)
    ensures v == SentVerdict(e, excluded, marked)
  {
    var isExcluded, isMarked := false, false;
    if e.receivers.Some? {
      isExcluded, isMarked := ScanReceivers(e.receivers.value, excluded, marked);
    }
    if isExcluded {
      v := Skipped;
    } else {
      v := Shown(isMarked);
    }
  }

  /** Inbox: an event is skipped exactly when its normalised sender is
      non-empty and excluded, and boosted exactly when it is shown and its
      normalised sender is non-empty and marked; exclusion wins over marking,
      and a missing or blank sender is neither skipped nor boosted. */
  lemma InboxVerdictSpec(e: MailEvent, excluded: set<string>, marked: set<string>)
    ensures var n := Normalize(e.sender.GetOr(""));
            && (InboxVerdict(e, excluded, marked).Skipped? <==> (n != "" && n in excluded))
            && (InboxVerdict(e, excluded, marked) == Shown(true) <==> (n != "" && n !in excluded && n in marked))
    ensures Normalize(e.sender.GetOr("")) == "" ==> InboxVerdict(e, excluded, marked) == Shown(false)
  {
    var n := Normalize(e.sender.GetOr(""));
    if e.sender.None? {
      assert Trim("") == "";
      assert n == "";
    }
  }

  /** When both sender sets hold only non-empty strings (as the add handlers
      guarantee), the `sender &&` guards are redundant: the rule is plain
      set membership of the normalised sender. */
  lemma InboxGuardRedundant(e: MailEvent, excluded: set<string>, marked: set<string>)
    requires "" !in excluded && "" !in marked
    requires e.sender.Some?
    ensures InboxVerdict(e, excluded, marked).Skipped? <==> Normalize(e.sender.value) in excluded
    ensures InboxVerdict(e, excluded, marked).Shown? ==>
              (InboxVerdict(e, excluded, marked).boosted <==> Normalize(e.sender.value) in marked)
  {
  }

  /** A sent event with an excluded receiver is skipped whatever its other
      receivers are, marked ones included. */
  lemma {:induction false} SentExclusionWins(e: MailEvent, excluded: set<string>, marked: set<string>, k: nat)
    requires e.receivers.Some? && k < |e.receivers.value|
    requires Normalize(e.receivers.value[k]) in excluded
    ensures SentVerdict(e, excluded, marked) == Skipped
  {
  }

  /** The break makes the scan depend on receiver order, but its verdict does
      not: any reordering of the receivers gives the same verdict. */
  lemma {:induction false} SentVerdictOrderFree(rs: seq<string>, rs': seq<string>, excluded: set<string>, marked: set<string>)
    requires multiset(rs) == multiset(rs')
    ensures SentVerdict(MailEvent(None, Some(rs), None, 0), excluded, marked)
         == SentVerdict(MailEvent(None, Some(rs'), None, 0), excluded, marked)
  {
    AnyInPermutation(rs, rs', excluded);
    AnyInPermutation(rs, rs', marked);
  }

  lemma AnyInPermutation(rs: seq<string>, rs': seq<string>, names: set<string>)
    requires multiset(rs) == multiset(rs')
    ensures AnyIn(rs, names) <==> AnyIn(rs', names)
  {
    if AnyIn(rs, names) {
      var i :| 0 <= i < |rs| && Normalize(rs[i]) in names;
      assert rs[i] in multiset(rs');
      var j :| 0 <= j < |rs'| && rs'[j] == rs[i];
    }
    if AnyIn(rs', names) {
      var i :| 0 <= i < |rs'| && Normalize(rs'[i]) in names;
      assert rs'[i] in multiset(rs);
      var j :| 0 <= j < |rs| && rs[j] == rs'[i];
    }
  }
}
