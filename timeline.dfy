/** The viewer's state (three event arrays and two sender sets), the
    handlers that change it, and `renderTimeline` as a computation from that
    state to the markers it draws. */
module Timeline {
  import opened Wrappers
  import opened Text
  import opened TimelineFilter
  import opened TimelineLayout
  import opened BodyPreview

  /** A file of the image picker: its name and `lastModified` (ms). */
  datatype PickedFile = PickedFile(name: string, lastModified: int)

  /** `{name, file, timestamp}`; `time` is the millisecond value of the
      timestamp, which is the file's `lastModified`. */
  datatype ImageEvent = ImageEvent(name: string, file: PickedFile, time: int)

  /** Which array a JSON file input fills. */
  datatype Feed = SentFeed | InboxFeed

  /** Why `JSON.parse(text)` followed by `push(...data)` can throw. */
  datatype LoadError = SyntaxError | NotIterable

  /** A drawn mail marker: the event, its `left`, whether it carries the
      marked classes, and its body preview. */
  datatype Dot = Dot(event: MailEvent, left: Position, boosted: bool, preview: string)

  datatype ImageDot = ImageDot(image: ImageEvent, left: Position)

  /** Everything one render draws, in drawing order. */
  datatype Rendering = Rendering(
    axis: Axis,
    labels: seq<Label>,
    inboxDots: seq<Dot>,
    sentDots: seq<Dot>,
    imageDots: seq<ImageDot>)

  /** The times of a list of events, in order. */
  function Times<T>(xs: seq<T>, time: T -> int): (ts: seq<int>)
    ensures |ts| == |xs|
    ensures forall i :: 0 <= i < |xs| ==> ts[i] == time(xs[i])
  {
    seq(|xs|, i requires 0 <= i < |xs| => time(xs[i]))
  }

  /** `[...sentEvents, ...inboxEvents, ...imageEvents]` mapped to times. */
  function AllTimes(sent: seq<MailEvent>, inbox: seq<MailEvent>, images: seq<ImageEvent>): seq<int> {
    Times(sent, (e: MailEvent) => e.time) + Times(inbox, (e: MailEvent) => e.time)
      + Times(images, (im: ImageEvent) => im.time)
  }

  function MailDot(e: MailEvent, a: Axis, boosted: bool): Dot {
    Dot(e, XPos(a, e.time as real), boosted, Preview(e.body))
  }

  /** The markers one loop over mail events draws under a verdict rule: one
      per shown event, in array order, skipped ones left out. */
  function Dots(es: seq<MailEvent>, rule: MailEvent -> Verdict, a: Axis): (ds: seq<Dot>)
    ensures |ds| <= |es|
    ensures forall d :: d in ds ==>
              d.event in es && rule(d.event) == Shown(d.boosted) && d == MailDot(d.event, a, d.boosted)
    ensures forall e :: e in es && rule(e).Shown? ==> MailDot(e, a, rule(e).boosted) in ds
  {
    if es == [] then []
    else
      var init := es[..|es| - 1];
      var e := es[|es| - 1];
      assert es == init + [e];
      var rest := Dots(init, rule, a);
      match rule(e)
      case Skipped => rest
      case Shown(b) => rest + [MailDot(e, a, b)]
  }

  function InboxDots(es: seq<MailEvent>, excluded: set<string>, marked: set<string>, a: Axis): seq<Dot> {
    Dots(es, e => InboxVerdict(e, excluded, marked), a)
  }

  function SentDots(es: seq<MailEvent>, excluded: set<string>, marked: set<string>, a: Axis): seq<Dot> {
    Dots(es, e => SentVerdict(e, excluded, marked), a)
  }

  lemma DotsStep(es: seq<MailEvent>, e: MailEvent, rule: MailEvent -> Verdict, a: Axis)
    ensures Dots(es + [e], rule, a)
         == Dots(es, rule, a) + if rule(e).Shown? then [MailDot(e, a, rule(e).boosted)] else []
  {
    assert (es + [e])[..|es|] == es;
  }

  function ImageDots(ims: seq<ImageEvent>, a: Axis): (ds: seq<ImageDot>)
    ensures |ds| == |ims|
    ensures forall i :: 0 <= i < |ims| ==> ds[i] == ImageDot(ims[i], XPos(a, ims[i].time as real))
  {
    seq(|ims|, i requires 0 <= i < |ims| => ImageDot(ims[i], XPos(a, ims[i].time as real)))
  }

  /** What `renderTimeline` draws for a given state: nothing when all three
      arrays are empty, else labels and markers on the axis of ALL events. */
  function TimelineOf(sent: seq<MailEvent>, inbox: seq<MailEvent>, images: seq<ImageEvent>,
                      excluded: set<string>, marked: set<string>): Option<Rendering>
  {
    var ts := AllTimes(sent, inbox, images);
    if |ts| == 0 then None
    else
      var a := AxisOf(ts);
      Some(Rendering(a, Labels(a), InboxDots(inbox, excluded, marked, a),
                     SentDots(sent, excluded, marked, a), ImageDots(images, a)))
  }

  /** The inbox loop of `renderTimeline` (lines 166-198). */
  method DrawInbox(events: seq<MailEvent>, excluded: set<string>, marked: set<string>, axis: Axis)
    returns (dots: seq<Dot>)
    ensures dots == InboxDots(events, excluded, marked, axis)
  {
    dots := [];
    for i := 0 to |events|
      invariant dots == InboxDots(events[..i], excluded, marked, axis)
    {
      var e := events[i];
      assert events[..i + 1] == events[..i] + [e];
      DotsStep(events[..i], e, e => InboxVerdict(e, excluded, marked), axis);
      var sender := if e.sender.Some? then Normalize(e.sender.value) else "";
      ghost var v := InboxVerdict(e, excluded, marked);
      assert v.Skipped? <==> sender != "" && sender in excluded;
      if sender != "" && sender in excluded {
        continue;
      }
      var boosted := sender != "" && sender in marked;
      assert v == Shown(boosted);
      dots := dots + [MailDot(e, axis, boosted)];
    }
    assert events[..|events|] == events;
  }

  /** The sent loop of `renderTimeline` (lines 201-250). */
  method DrawSent(events: seq<MailEvent>, excluded: set<string>, marked: set<string>, axis: Axis)
    returns (dots: seq<Dot>)
    ensures dots == SentDots(events, excluded, marked, axis)
  {
    dots := [];
    for i := 0 to |events|
      invariant dots == SentDots(events[..i], excluded, marked, axis)
    {
      var e := events[i];
      assert events[..i + 1] == events[..i] + [e];
      DotsStep(events[..i], e, e => SentVerdict(e, excluded, marked), axis);
      var isExcluded, isMarked := false, false;
      if e.receivers.Some? {
        isExcluded, isMarked := ScanReceivers(e.receivers.value, excluded, marked);
      }
      ghost var v := SentVerdict(e, excluded, marked);
      assert v.Skipped? <==> isExcluded;
      if isExcluded {
        continue;
      }
      assert v == Shown(isMarked);
      dots := dots + [MailDot(e, axis, isMarked)];
    }
    assert events[..|events|] == events;
  }

  /** The image loop of `renderTimeline` (lines 253-272). */
  method DrawImages(images: seq<ImageEvent>, axis: Axis) returns (dots: seq<ImageDot>)
    ensures dots == ImageDots(images, axis)
  {
    dots := [];
    for i := 0 to |images|
      invariant |dots| == i
      invariant forall j :: 0 <= j < i ==> dots[j] == ImageDot(images[j], XPos(axis, images[j].time as real))
    {
      var img := images[i];
      dots := dots + [ImageDot(img, XPos(axis, img.time as real))];
    }
  }

  /** Sender sets hold only non-empty normalised strings. */
  ghost predicate SenderSet(names: set<string>) {
    forall s :: s in names ==> s != "" && Normalize(s) == s
  }

  /** Sets kept in sender form never hold "", so the inbox rule is plain
      membership of the normalised sender. */
  lemma SenderSetInboxRule(e: MailEvent, excluded: set<string>, marked: set<string>)
    requires SenderSet(excluded) && SenderSet(marked)
    requires e.sender.Some?
    ensures InboxVerdict(e, excluded, marked).Skipped? <==> Normalize(e.sender.value) in excluded
    ensures InboxVerdict(e, excluded, marked).Shown? ==>
              (InboxVerdict(e, excluded, marked).boosted <==> Normalize(e.sender.value) in marked)
  {
    InboxGuardRedundant(e, excluded, marked);
  }

  lemma SenderSetAdd(names: set<string>, input: string)
    requires SenderSet(names) && Normalize(input) != ""
    ensures SenderSet(names + {Normalize(input)})
  {
    var v := Normalize(input);
    NormalizeIdempotent(input);
    forall x | x in names + {v} ensures x != "" && Normalize(x) == x {
      if x != v {
        assert x in names;
      }
    }
  }

  /** The page's global state. */
  class Session {
    var sentEvents: seq<MailEvent>
    var inboxEvents: seq<MailEvent>
    var imageEvents: seq<ImageEvent>
    var markedSenders: set<string>
    var excludedSenders: set<string>

    ghost predicate Valid()
      reads this
    {
      SenderSet(markedSenders) && SenderSet(excludedSenders)
    }

    constructor ()
      ensures Valid()
      ensures sentEvents == [] && inboxEvents == [] && imageEvents == []
      ensures markedSenders == {} && excludedSenders == {}
    {
      sentEvents, inboxEvents, imageEvents := [], [], [];
      markedSenders, excludedSenders := {}, {};
    }

    /** The "add-exclude" button: stores the trimmed, lower-cased input;
        input that is blank after trimming changes nothing. */
    method AddExclude(input: string) returns (accepted: bool)
      requires Valid()
      modifies this`excludedSenders
      ensures Valid()
      ensures accepted <==> Normalize(input) != ""
      ensures excludedSenders == if accepted then old(excludedSenders) + {Normalize(input)}
                                 else old(excludedSenders)
    {
      var value := Normalize(input);
      accepted := value != "";
      if accepted {
        SenderSetAdd(excludedSenders, input);
        excludedSenders := excludedSenders + {value};
      }
    }

    /** The "add-mark" button, the same for the marked set. */
    method AddMark(input: string) returns (accepted: bool)
      requires Valid()
      modifies this`markedSenders
      ensures Valid()
      ensures accepted <==> Normalize(input) != ""
      ensures markedSenders == if accepted then old(markedSenders) + {Normalize(input)}
                               else old(markedSenders)
    {
      var value := Normalize(input);
      accepted := value != "";
      if accepted {
        SenderSetAdd(markedSenders, input);
        markedSenders := markedSenders + {value};
      }
    }

    /** Clicking an entry of the excluded list removes exactly that sender. */
    method RemoveExcluded(sender: string)
      requires Valid()
      modifies this`excludedSenders
      ensures Valid()
      ensures excludedSenders == old(excludedSenders) - {sender}
    {
      excludedSenders := excludedSenders - {sender};
    }

    /** Clicking an entry of the marked list removes exactly that sender. */
    method RemoveMarked(sender: string)
      requires Valid()
      modifies this`markedSenders
      ensures Valid()
      ensures markedSenders == old(markedSenders) - {sender}
    {
      markedSenders := markedSenders - {sender};
    }

    /** The `onload` body of `loadJSON`: the target array is emptied first,
        then filled with the parsed array; when parsing throws, the alert is
        shown and the array stays empty (its old contents are lost). The other
        array is untouched. */
    method LoadJson(feed: Feed, parsed: Result<seq<MailEvent>, LoadError>) returns (alerted: bool)
      modifies this`sentEvents, this`inboxEvents
      ensures alerted <==> parsed.Failure?
      ensures var loaded := if parsed.Success? then parsed.value else [];
              if feed == SentFeed then sentEvents == loaded && inboxEvents == old(inboxEvents)
              else inboxEvents == loaded && sentEvents == old(sentEvents)
    {
      if feed == SentFeed {
        sentEvents := [];
      } else {
        inboxEvents := [];
      }
      match parsed
      case Success(data) =>
        if feed == SentFeed {
          sentEvents := sentEvents + data;
        } else {
          inboxEvents := inboxEvents + data;
        }
        alerted := false;
      case Failure(_) =>
        alerted := true;
    }

    /** The image picker's change handler: `imageEvents` becomes one entry per
        selected file, in selection order, timed by its `lastModified`. */
    method LoadImages(files: seq<PickedFile>)
      modifies this`imageEvents
      ensures |imageEvents| == |files|
      ensures forall i :: 0 <= i < |files| ==>
                imageEvents[i] == ImageEvent(files[i].name, files[i], files[i].lastModified)
    {
      imageEvents := [];
      for i := 0 to |files|
        invariant |imageEvents| == i
        invariant forall j :: 0 <= j < i ==>
                    imageEvents[j] == ImageEvent(files[j].name, files[j], files[j].lastModified)
      {
        var file := files[i];
        imageEvents := imageEvents + [ImageEvent(file.name, file, file.lastModified)];
      }
    }

    /** `renderTimeline`: the axis over all events, the labels, then the
        inbox, sent and image loops. */
    method Render() returns (r: Option<Rendering>)
      ensures r == TimelineOf(sentEvents, inboxEvents, imageEvents, excludedSenders, markedSenders)
    {
      var times := AllTimes(sentEvents, inboxEvents, imageEvents);
      if |times| == 0 {
        return None;
      }
      var axis := Axis(MinOf(times), MaxOf(times));
      var labels := Labels(axis);

      var inboxDots := DrawInbox(inboxEvents, excludedSenders, markedSenders, axis);
      var sentDots := DrawSent(sentEvents, excludedSenders, markedSenders, axis);
      var imageDots := DrawImages(imageEvents, axis);
      r := Some(Rendering(axis, labels, inboxDots, sentDots, imageDots));
    }
  }

  // ---- Properties of a render ----

  /** Nothing is drawn exactly when all three arrays are empty. */
  lemma NothingDrawnIffEmpty(sent: seq<MailEvent>, inbox: seq<MailEvent>, images: seq<ImageEvent>,
                             excluded: set<string>, marked: set<string>)
    ensures TimelineOf(sent, inbox, images, excluded, marked).None?
        <==> sent == [] && inbox == [] && images == []
  {
  }

  /** The axis of a render is the axis of all loaded times, whatever the
      sender sets are. */
  lemma RenderAxis(sent: seq<MailEvent>, inbox: seq<MailEvent>, images: seq<ImageEvent>,
                   excluded: set<string>, marked: set<string>)
    requires TimelineOf(sent, inbox, images, excluded, marked).Some?
    ensures |AllTimes(sent, inbox, images)| > 0
    ensures TimelineOf(sent, inbox, images, excluded, marked).value.axis == AxisOf(AllTimes(sent, inbox, images))
  {
  }

  /** The axis spans every loaded event, skipped ones included: it is
      computed from the event arrays alone. */
  lemma AxisSpansAllEvents(sent: seq<MailEvent>, inbox: seq<MailEvent>, images: seq<ImageEvent>)
    requires |AllTimes(sent, inbox, images)| > 0
    ensures var a := AxisOf(AllTimes(sent, inbox, images));
            && (forall i :: 0 <= i < |sent| ==> a.minTime <= sent[i].time <= a.maxTime)
            && (forall i :: 0 <= i < |inbox| ==> a.minTime <= inbox[i].time <= a.maxTime)
            && (forall i :: 0 <= i < |images| ==> a.minTime <= images[i].time <= a.maxTime)
  {
    var ts := AllTimes(sent, inbox, images);
    assert forall i :: 0 <= i < |sent| ==> ts[i] == sent[i].time;
    assert forall i :: 0 <= i < |inbox| ==> ts[|sent| + i] == inbox[i].time;
    assert forall i :: 0 <= i < |images| ==> ts[|sent| + |inbox| + i] == images[i].time;
  }

  /** On a non-degenerate axis every drawn marker lies within [0, 100]%; on
      a degenerate one (every event at the same instant) none has a finite
      position. */
  lemma MarkersWithinAxis(sent: seq<MailEvent>, inbox: seq<MailEvent>, images: seq<ImageEvent>,
                          excluded: set<string>, marked: set<string>)
    requires TimelineOf(sent, inbox, images, excluded, marked).Some?
    ensures var r := TimelineOf(sent, inbox, images, excluded, marked).value;
            Duration(r.axis) > 0 ==>
              && (forall d :: d in r.inboxDots + r.sentDots ==>
                    d.left.Percent? && 0.0 <= d.left.value <= 100.0)
              && (forall d :: d in r.imageDots ==>
                    d.left.Percent? && 0.0 <= d.left.value <= 100.0)
    ensures var r := TimelineOf(sent, inbox, images, excluded, marked).value;
            Duration(r.axis) == 0 ==>
              && (forall d :: d in r.inboxDots + r.sentDots ==> d.left == NotFinite)
              && (forall d :: d in r.imageDots ==> d.left == NotFinite)
  {
    var r := TimelineOf(sent, inbox, images, excluded, marked).value;
    var a := r.axis;
    RenderAxis(sent, inbox, images, excluded, marked);
    AxisSpansAllEvents(sent, inbox, images);
    if Duration(a) > 0 {
      forall d | d in r.inboxDots + r.sentDots
        ensures d.left.Percent? && 0.0 <= d.left.value <= 100.0
      {
        var es := if d in r.inboxDots then inbox else sent;
        var k :| 0 <= k < |es| && es[k] == d.event;
        XPosInRange(a, d.event.time as real);
      }
      forall d | d in r.imageDots
        ensures d.left.Percent? && 0.0 <= d.left.value <= 100.0
      {
        var i :| 0 <= i < |images| && r.imageDots[i] == d;
        XPosInRange(a, images[i].time as real);
      }
    }
  }

  /** A sent event is drawn iff none of its receivers is excluded, and then
      it is boosted iff one is marked; an inbox event is drawn iff its
      normalised sender is not a non-empty excluded one. */
  lemma DrawnEvents(sent: seq<MailEvent>, inbox: seq<MailEvent>, images: seq<ImageEvent>,
                    excluded: set<string>, marked: set<string>)
    requires TimelineOf(sent, inbox, images, excluded, marked).Some?
    ensures var r := TimelineOf(sent, inbox, images, excluded, marked).value;
            forall e :: e in sent ==>
              && ((exists d :: d in r.sentDots && d.event == e) <==> !(e.receivers.Some? && AnyIn(e.receivers.value, excluded)))
              && (forall d :: d in r.sentDots && d.event == e ==>
                    (d.boosted <==> e.receivers.Some? && AnyIn(e.receivers.value, marked)))
    ensures var r := TimelineOf(sent, inbox, images, excluded, marked).value;
            forall e :: e in inbox ==>
              ((exists d :: d in r.inboxDots && d.event == e) <==> InboxVerdict(e, excluded, marked).Shown?)
  {
    var r := TimelineOf(sent, inbox, images, excluded, marked).value;
    forall e | e in sent
      ensures (exists d :: d in r.sentDots && d.event == e) <==> !(e.receivers.Some? && AnyIn(e.receivers.value, excluded))
    {
      if SentVerdict(e, excluded, marked).Shown? {
        assert MailDot(e, r.axis, SentVerdict(e, excluded, marked).boosted) in r.sentDots;
      }
    }
    forall e | e in inbox
      ensures (exists d :: d in r.inboxDots && d.event == e) <==> InboxVerdict(e, excluded, marked).Shown?
    {
      if InboxVerdict(e, excluded, marked).Shown? {
        assert MailDot(e, r.axis, InboxVerdict(e, excluded, marked).boosted) in r.inboxDots;
      }
    }
  }

  lemma ExampleAddressNormal()
    ensures Normalize("a@x.com") == "a@x.com"
  {
    var address := "a@x.com";
    forall i | 0 <= i < |address| ensures !('A' <= address[i] <= 'Z') {
    }
    NormalizeOfNormal(address);
  }

  /** An inbox message from a@x.com and a sent message to a@x.com, with
      a@x.com excluded: neither is drawn, whatever the axis. */
  lemma ExcludedAddressExample(t1: int, t2: int, a: Axis)
    ensures InboxDots([MailEvent(Some("a@x.com"), None, Some("hi"), t1)], {"a@x.com"}, {}, a) == []
    ensures SentDots([MailEvent(Some("me"), Some(["a@x.com"]), Some("re"), t2)], {"a@x.com"}, {}, a) == []
  {
    ExampleAddressNormal();
    var inbox := [MailEvent(Some("a@x.com"), None, Some("hi"), t1)];
    var sent := [MailEvent(Some("me"), Some(["a@x.com"]), Some("re"), t2)];
    assert InboxVerdict(inbox[0], {"a@x.com"}, {}) == Skipped;
    assert sent[0].receivers.value[0] == "a@x.com";
    assert Normalize(sent[0].receivers.value[0]) in {"a@x.com"};
    assert AnyInPrefix(sent[0].receivers.value, 1, {"a@x.com"});
    assert SentVerdict(sent[0], {"a@x.com"}, {}) == Skipped;
    DotsStep([], inbox[0], e => InboxVerdict(e, {"a@x.com"}, {}), a);
    DotsStep([], sent[0], e => SentVerdict(e, {"a@x.com"}, {}), a);
    assert [] + inbox == inbox && [] + sent == sent;
  }
}
