/** The mbox exporter: one event record per message, numbered in mailbox
    order, then sorted stably by timestamp. The mail libraries (header
    lookup, `parseaddr`, `getaddresses`, `dateparser`, payload decoding) are
    inputs. */
module MboxEvents {
  import opened Wrappers
  import opened Text

  /** The outcome of `get_payload(decode=True).decode(charset, errors="ignore")`. */
  datatype Payload = Decoded(text: string) | DecodeError

  /** One part visited by `msg.walk()`. `disposition` is the raw
      Content-Disposition header, None when absent. */
  datatype Part = Part(contentType: string, disposition: Option<string>, payload: Payload)

  /** A message body: a single payload, or the parts `walk()` yields, in
      walk order. */
  datatype Content = SinglePart(payload: Payload) | Multipart(walk: seq<Part>)

  /** The header values the exporter reads (None when the header is absent). */
  datatype Message = Message(
    subjectHeader: Option<string>,
    fromHeader: Option<string>,
    toHeader: Option<string>,
    dateHeader: Option<string>,
    content: Content)

  /** One exported record. */
  datatype Event = Event(
    id: nat,
    subject: string,
    sender: string,
    receivers: seq<string>,
    timestamp: Option<string>,
    body: string)

  // ---- get_email_body ----

  /** Python's `needle in hay` on strings. */
  predicate Contains(hay: string, needle: string) {
    (|needle| <= |hay| && hay[..|needle|] == needle) || (hay != [] && Contains(hay[1..], needle))
  }

  /** `str(part.get("Content-Disposition"))`: an absent header prints as "None". */
  function DispositionText(d: Option<string>): string {
    match d
    case None => "None"
    case Some(s) => s
  }

  /** A `text/plain` part that is not an attachment. */
  predicate Eligible(p: Part) {
    p.contentType == "text/plain" && !Contains(DispositionText(p.disposition), "attachment")
  }

  /** An eligible part whose payload decodes: the loop returns its text. */
  predicate Usable(p: Part) {
    Eligible(p) && p.payload.Decoded?
  }

  /** The index of the first usable part, if any. */
  function FirstUsable(walk: seq<Part>): (k: Option<nat>)
    ensures k.Some? ==> (k.value < |walk| && Usable(walk[k.value])
                         && forall j :: 0 <= j < k.value ==> !Usable(walk[j]))
    ensures k.None? ==> forall j :: 0 <= j < |walk| ==> !Usable(walk[j])
  {
    if walk == [] then None
    else if Usable(walk[0]) then Some(0)
    else
      var k := FirstUsable(walk[1..]);
      if k.Some? then Some(k.value + 1) else None
  }

  /** The body text `get_email_body` returns. */
  function EmailBody(c: Content): string {
    match c
    case SinglePart(p) => if p.Decoded? then p.text else ""
    case Multipart(walk) =>
      match FirstUsable(walk)
      case Some(k) => walk[k].payload.text
      case None => ""
  }

  /** `get_email_body`: for a multipart message the decoded text of the first
      `text/plain`, non-attachment part that decodes (parts that fail to
      decode are passed over), else ""; for a single-part message its
      decoded payload, or "" when decoding fails. */
  method GetEmailBody(content: Content) returns (body: string)
    ensures content.SinglePart? ==>
              body == (if content.payload.Decoded? then content.payload.text else "")
    ensures content.Multipart? ==>
              (|| (exists k :: 0 <= k < |content.walk| && Usable(content.walk[k])
                              && (forall j :: 0 <= j < k ==> !Usable(content.walk[j]))
                              && body == content.walk[k].payload.text)
               || ((forall j :: 0 <= j < |content.walk| ==> !Usable(content.walk[j])) && body == ""))
    ensures body == EmailBody(content)
  {
    match content
    case SinglePart(payload) =>
      if payload.Decoded? {
        return payload.text;
      }
      return "";
    case Multipart(walk) =>
      for i := 0 to |walk|
        invariant forall j :: 0 <= j < i ==> !Usable(walk[j])
      {
        var part := walk[i];
        if part.contentType == "text/plain" && !Contains(DispositionText(part.disposition), "attachment") {
          if part.payload.Decoded? {
            return part.payload.text;
          }
        }
      }
      return "";
  }

  // ---- the per-message record ----

  const NoSubject := "(No subject)"
  const UnknownSender := "(unknown)"

  /** `msg['subject'] or "(No subject)"`. */
  function SubjectOf(m: Message): string {
    if m.subjectHeader.Some? && m.subjectHeader.value != "" then m.subjectHeader.value else NoSubject
  }

  /** `parseaddr(msg['from'] or "")[1].lower() or "(unknown)"`. */
  function SenderOf(m: Message, parseAddr: string -> string): string {
    var address := ToLower(parseAddr(m.fromHeader.GetOr("")));
    if address == "" then UnknownSender else address
  }

  /** `[email.lower() for (_, email) in parsed if email]`. */
  function LowerNonEmpty(addresses: seq<string>): (r: seq<string>)
    ensures |r| <= |addresses|
    ensures forall x :: x in r ==> x != "" && ToLower(x) == x
    ensures forall a :: a in addresses && a != "" ==> ToLower(a) in r
    ensures forall x :: x in r ==> exists a :: a in addresses && a != "" && ToLower(a) == x
    ensures r == [] <==> forall a :: a in addresses ==> a == ""
  {
    if addresses == [] then []
    else
      var a := addresses[0];
      var rest := LowerNonEmpty(addresses[1..]);
      assert forall b :: b in addresses[1..] ==> b in addresses;
      if a == "" then rest
      else
        ToLowerIdempotent(a);
        ToLowerEmpty(a);
        [ToLower(a)] + rest
  }

  /** The receiver list: empty without a (non-empty) To header, else the
      lower-cased non-empty addresses `getaddresses` finds, in order. */
  function ReceiversOf(m: Message, getAddresses: string -> seq<string>): seq<string> {
    var raw := m.toHeader.GetOr("");
    if raw == "" then [] else LowerNonEmpty(getAddresses(raw))
  }

  /** `dateparser.parse(date_raw).isoformat()`, None when it raises (an
      absent Date header always raises). */
  function TimestampOf(m: Message, parseDate: string -> Option<string>): Option<string> {
    match m.dateHeader
    case None => None
    case Some(d) => parseDate(d)
  }

  function EventOf(id: nat, m: Message, parseAddr: string -> string,
                   getAddresses: string -> seq<string>, parseDate: string -> Option<string>): Event {
    Event(id, SubjectOf(m), SenderOf(m, parseAddr), ReceiversOf(m, getAddresses),
          TimestampOf(m, parseDate), EmailBody(m.content))
  }

  /** The events before sorting: the i-th message of the mailbox gives the
      event with id i + 1. */
  function Built(msgs: seq<Message>, parseAddr: string -> string,
                 getAddresses: string -> seq<string>, parseDate: string -> Option<string>): (es: seq<Event>)
    ensures |es| == |msgs|
    ensures forall i :: 0 <= i < |msgs| ==> es[i] == EventOf(i + 1, msgs[i], parseAddr, getAddresses, parseDate)
  {
    seq(|msgs|, i requires 0 <= i < |msgs| => EventOf(i + 1, msgs[i], parseAddr, getAddresses, parseDate))
  }

  /** The fields of every built record: numbered from 1 in mailbox order,
      the Subject header or "(No subject)", the lower-cased parsed From
      address or "(unknown)", the lower-cased non-empty addresses of a
      non-empty To header, the parsed date when there is one, and the body
      `get_email_body` chooses. */
  lemma {:induction false} BuiltRecords(msgs: seq<Message>, parseAddr: string -> string,
                      getAddresses: string -> seq<string>, parseDate: string -> Option<string>, i: nat)
    requires i < |msgs|
    ensures var e := Built(msgs, parseAddr, getAddresses, parseDate)[i];
            var m := msgs[i];
            && e.id == i + 1
            && (e.subject == NoSubject <==> (m.subjectHeader.GetOr("") == "" || m.subjectHeader.value == NoSubject))
            && e.subject != ""
            && (e.sender == UnknownSender || ToLower(e.sender) == e.sender)
            && (e.sender == UnknownSender <==> (parseAddr(m.fromHeader.GetOr("")) == "" || ToLower(parseAddr(m.fromHeader.GetOr(""))) == UnknownSender))
            && (forall r :: r in e.receivers ==> r != "" && ToLower(r) == r)
            && (m.subjectHeader.GetOr("") != "" ==> e.subject == m.subjectHeader.value)
            && (ToLower(parseAddr(m.fromHeader.GetOr(""))) != "" ==>
                  e.sender == ToLower(parseAddr(m.fromHeader.GetOr(""))))
            && (m.toHeader.GetOr("") == "" ==> e.receivers == [])
            && (m.toHeader.GetOr("") != "" ==> e.receivers == LowerNonEmpty(getAddresses(m.toHeader.value)))
            && (e.timestamp.Some? <==> m.dateHeader.Some? && parseDate(m.dateHeader.value).Some?)
            && e.timestamp == (if m.dateHeader.Some? then parseDate(m.dateHeader.value) else None)
            && e.body == EmailBody(m.content)
  {
    var m := msgs[i];
    ToLowerIdempotent(parseAddr(m.fromHeader.GetOr("")));
    ToLowerEmpty(parseAddr(m.fromHeader.GetOr("")));
  }

  // ---- the stable sort by timestamp ----

  /** `x["timestamp"] or ""`. */
  function Key(e: Event): string {
    e.timestamp.GetOr("")
  }

  /** Python's `<=` on strings: code-point lexicographic order. */
  predicate LexLe(a: string, b: string) {
    if a == [] then true
    else if b == [] then false
    else if a[0] != b[0] then a[0] < b[0]
    else LexLe(a[1..], b[1..])
  }

  lemma LexLeReflexive(a: string)
    ensures LexLe(a, a)
  {
  }

  lemma LexLeTotal(a: string, b: string)
    ensures LexLe(a, b) || LexLe(b, a)
  {
  }

  lemma LexLeTransitive(a: string, b: string, c: string)
    requires LexLe(a, b) && LexLe(b, c)
    ensures LexLe(a, c)
  {
    if a != [] && b != [] && c != [] && a[0] == b[0] == c[0] {
      LexLeTransitive(a[1..], b[1..], c[1..]);
    }
  }

  predicate SortedByKey(s: seq<Event>) {
    forall i, j :: 0 <= i < j < |s| ==> LexLe(Key(s[i]), Key(s[j]))
  }

  /** Insert `e` before the first element whose key is not below its own. */
  function InsertByKey(e: Event, s: seq<Event>): (r: seq<Event>)
    ensures multiset(r) == multiset(s) + multiset{e}
    ensures |r| == |s| + 1
  {
    if s == [] || LexLe(Key(e), Key(s[0])) then [e] + s
    else
      assert s == [s[0]] + s[1..];
      [s[0]] + InsertByKey(e, s[1..])
  }

  /** `events.sort(key=lambda x: x["timestamp"] or "")`. Python's sort is
      stable; this insertion sort is stable too (uniqueness of the stable
      result is not proved here). */
  function SortByTimestamp(s: seq<Event>): (r: seq<Event>)
    ensures multiset(r) == multiset(s)
    ensures |r| == |s|
  {
    if s == [] then []
    else
      assert s == [s[0]] + s[1..];
      InsertByKey(s[0], SortByTimestamp(s[1..]))
  }

  lemma {:induction false} InsertSorted(e: Event, s: seq<Event>)
    requires SortedByKey(s)
    ensures SortedByKey(InsertByKey(e, s))
  {
    if s == [] || LexLe(Key(e), Key(s[0])) {
      forall j | 0 <= j < |s| ensures LexLe(Key(e), Key(s[j])) {
        if j > 0 {
          LexLeTransitive(Key(e), Key(s[0]), Key(s[j]));
        }
      }
    } else {
      InsertSorted(e, s[1..]);
      var rest := InsertByKey(e, s[1..]);
      LexLeTotal(Key(e), Key(s[0]));
      forall x | x in rest ensures LexLe(Key(s[0]), Key(x)) {
        assert x in multiset(rest);
        if x != e {
          assert x in s[1..];
        }
      }
      var r := [s[0]] + rest;
      forall i, j | 0 <= i < j < |r| ensures LexLe(Key(r[i]), Key(r[j])) {
        if i == 0 {
          assert r[j] in rest;
        }
      }
    }
  }

  lemma {:induction false} SortSorted(s: seq<Event>)
    ensures SortedByKey(SortByTimestamp(s))
  {
    if s != [] {
      SortSorted(s[1..]);
      InsertSorted(s[0], SortByTimestamp(s[1..]));
    }
  }

  /** The events of `s` whose key is `k`, in order. */
  function WithKey(s: seq<Event>, k: string): seq<Event> {
    if s == [] then []
    else (if Key(s[0]) == k then [s[0]] else []) + WithKey(s[1..], k)
  }

  /** The filter keeps only events of `s`, and only those with key `k`. */
  lemma {:induction false} WithKeyMembers(s: seq<Event>, k: string)
    ensures forall x :: x in WithKey(s, k) ==> x in s && Key(x) == k
  {
    if s != [] {
      WithKeyMembers(s[1..], k);
    }
  }

  /** Filtering a sequence that starts with `x`. */
  lemma WithKeyCons(x: Event, s: seq<Event>, k: string)
    ensures WithKey([x] + s, k) == (if Key(x) == k then [x] else []) + WithKey(s, k)
  {
    assert ([x] + s)[1..] == s;
  }

  lemma {:induction false} InsertWithKey(e: Event, s: seq<Event>, k: string)
    ensures WithKey(InsertByKey(e, s), k) == WithKey([e] + s, k)
  {
    if s != [] && !LexLe(Key(e), Key(s[0])) {
      var rest := InsertByKey(e, s[1..]);
      InsertWithKey(e, s[1..], k);
      LexLeReflexive(Key(e));
      assert !(Key(e) == k && Key(s[0]) == k);
      WithKeyCons(s[0], rest, k);
      WithKeyCons(e, s[1..], k);
      WithKeyCons(e, s, k);
      WithKeyCons(s[0], s[1..], k);
      assert [s[0]] + s[1..] == s;
    } else {
      assert InsertByKey(e, s) == [e] + s;
    }
  }

  /** Stability: for every key, the events with that key keep their input
      order. */
  lemma {:induction false} SortStable(s: seq<Event>, k: string)
    ensures WithKey(SortByTimestamp(s), k) == WithKey(s, k)
  {
    if s != [] {
      SortStable(s[1..], k);
      InsertWithKey(s[0], SortByTimestamp(s[1..]), k);
      assert ([s[0]] + SortByTimestamp(s[1..]))[1..] == SortByTimestamp(s[1..]);
    }
  }

  predicate IncreasingIds(s: seq<Event>) {
    forall i, j :: 0 <= i < j < |s| ==> s[i].id < s[j].id
  }

  lemma {:induction false} WithKeyIncreasing(s: seq<Event>, k: string)
    requires IncreasingIds(s)
    ensures IncreasingIds(WithKey(s, k))
  {
    if s != [] {
      assert IncreasingIds(s[1..]);
      WithKeyIncreasing(s[1..], k);
      WithKeyMembers(s[1..], k);
      var rest := WithKey(s[1..], k);
      forall x | x in rest ensures s[0].id < x.id {
        var j :| 0 <= j < |s[1..]| && s[1..][j] == x;
        assert s[j + 1] == x;
      }
      var r := (if Key(s[0]) == k then [s[0]] else []) + rest;
      forall i, j | 0 <= i < j < |r| ensures r[i].id < r[j].id {
        if Key(s[0]) == k && i == 0 {
          assert r[j] in rest;
        }
      }
    }
  }

  /** `parse_mbox_file` after opening the mailbox: one record per message in
      mailbox order, then the stable sort by timestamp. */
  method ParseMbox(msgs: seq<Message>, parseAddr: string -> string,
                   getAddresses: string -> seq<string>, parseDate: string -> Option<string>)
    returns (events: seq<Event>)
    ensures events == SortByTimestamp(Built(msgs, parseAddr, getAddresses, parseDate))
    ensures |events| == |msgs|
    ensures multiset(events) == multiset(Built(msgs, parseAddr, getAddresses, parseDate))
    ensures SortedByKey(events)
    ensures forall k :: WithKey(events, k) == WithKey(Built(msgs, parseAddr, getAddresses, parseDate), k)
    ensures forall k :: IncreasingIds(WithKey(events, k))
  {
    var built: seq<Event> := [];
    for i := 0 to |msgs|
      invariant |built| == i
      invariant forall j :: 0 <= j < i ==> built[j] == EventOf(j + 1, msgs[j], parseAddr, getAddresses, parseDate)
    {
      var m := msgs[i];
      var body := GetEmailBody(m.content);
      built := built + [Event(i + 1, SubjectOf(m), SenderOf(m, parseAddr), ReceiversOf(m, getAddresses),
                              TimestampOf(m, parseDate), body)];
    }
    ghost var spec := Built(msgs, parseAddr, getAddresses, parseDate);
    assert built == spec;
    events := SortByTimestamp(built);
    SortSorted(built);
    forall k ensures WithKey(events, k) == WithKey(built, k) && IncreasingIds(WithKey(events, k)) {
      SortStable(built, k);
      WithKeyIncreasing(built, k);
    }
  }
}
