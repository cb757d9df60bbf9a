/** `scrape_messages`: read the chat history newest first, at most `limit * 10` messages,
    collect the records of every message until `limit` records have been gathered, keep
    those starting with `start_number` (when given), cut the list to `limit`, and return
    nothing at all if reading the history fails at any point.

    The chat client is a parameter: the history is the sequence of what each step of
    `get_chat_history` yields (a message or a failure), and `re.findall` with the card
    pattern is the function `findall` from a text to its matched substrings. */
module Scanner {
  import opened Wrappers
  import opened Strings
  import opened Records

  datatype Message = Message(text: Option<string>, caption: Option<string>)

  /** One step of the history iterator: the next message, or the exception it raises. */
  datatype Fetch = Delivered(message: Message) | Failed

  /** Python truthiness of an optional string: present and non-empty. */
  predicate Truthy(s: Option<string>) {
    s.Some? && s.value != []
  }

  /** `message.text if message.text else message.caption`, with a falsy result as `[]`. */
  function TextOf(m: Message): (t: string)
    ensures t == [] <==> !Truthy(m.text) && !Truthy(m.caption)
    ensures t != [] ==> m.text == Some(t) || m.caption == Some(t)
    ensures Truthy(m.text) ==> m.text == Some(t)
  {
    if Truthy(m.text) then m.text.value
    else if Truthy(m.caption) then m.caption.value
    else []
  }

  /** The records one history step contributes: only a delivered message with text or a
      caption contributes any, and each is a well-formed record. */
  function Produced(f: Fetch, findall: string -> seq<string>): (records: seq<string>)
    ensures records != [] ==> f.Delivered? && TextOf(f.message) != []
    ensures forall k | 0 <= k < |records| :: IsRecord(records[k])
  {
    match f
    case Failed => []
    case Delivered(m) =>
      var text := TextOf(m);
      if text == [] then []
      else
        FormatAllSound(findall(text));
        FormatAll(findall(text))
  }

  /** `Produced` as a function of the step alone. */
  function Producer(findall: string -> seq<string>): Fetch -> seq<string> {
    f => Produced(f, findall)
  }

  /** `messages.extend` over a run of steps: what each step produces, in reading order. */
  function Gather(steps: seq<Fetch>, produce: Fetch -> seq<string>): seq<string> {
    if steps == [] then []
    else Gather(steps[..|steps| - 1], produce) + produce(steps[|steps| - 1])
  }

  /** The records of a run of history steps, in reading order. */
  function Accumulated(steps: seq<Fetch>, findall: string -> seq<string>): seq<string> {
    Gather(steps, Producer(findall))
  }

  /** The part of the history `get_chat_history(..., limit=limit*10)` can deliver. A
      limit of zero or less asks the client for no bound; the loop then stops at the
      first message anyway. */
  function ReadWindow(history: seq<Fetch>, limit: int): (window: seq<Fetch>)
    ensures window <= history
    ensures limit > 0 ==> |window| <= limit * 10
    ensures limit > 0 && |history| >= limit * 10 ==> |window| == limit * 10
    ensures limit <= 0 || |history| <= limit * 10 ==> window == history
  {
    if limit > 0 && limit * 10 < |history| then history[..limit * 10] else history
  }

  /** How many steps `get_chat_history(..., limit=limit*10)` yields: the window read. */
  function FetchCount(history: seq<Fetch>, limit: int): (n: nat)
    ensures n <= |history| && ReadWindow(history, limit) == history[..n]
  {
    if limit > 0 && limit * 10 < |history| then limit * 10 else |history|
  }

  /** Step `i` ends the loop: fetching it raises, or the records before it reach `limit`
      (the `count >= limit` check comes after the fetch). */
  predicate StopsAt(window: seq<Fetch>, limit: int, produce: Fetch -> seq<string>, i: nat)
    requires i < |window|
  {
    window[i].Failed? || |Gather(window[..i], produce)| >= limit
  }

  /** The first step at or after `from` that ends the loop, or the end of the window
      (`StopIndexIsFirst`). */
  function StopIndex(window: seq<Fetch>, limit: int, produce: Fetch -> seq<string>, from: nat): (k: nat)
    requires from <= |window|
    ensures from <= k <= |window|
    decreases |window| - from
  {
    if from == |window| || StopsAt(window, limit, produce, from) then from
    else StopIndex(window, limit, produce, from + 1)
  }

  /** The loop ends at the first step that fails or at which `limit` records are already
      gathered, and at no step before it. */
  lemma {:induction false} StopIndexIsFirst(window: seq<Fetch>, limit: int, produce: Fetch -> seq<string>, from: nat)
    requires from <= |window|
    ensures forall j | from <= j < StopIndex(window, limit, produce, from) :: !StopsAt(window, limit, produce, j)
    ensures StopIndex(window, limit, produce, from) < |window| ==>
      StopsAt(window, limit, produce, StopIndex(window, limit, produce, from))
    decreases |window| - from
  {
    if from < |window| && !StopsAt(window, limit, produce, from) {
      StopIndexIsFirst(window, limit, produce, from + 1);
    }
  }

  datatype Outcome = Aborted | Collected(records: seq<string>)

  /** What the `try` block produces before the filter: the exception, or the records of
      every message read before the loop ended. */
  function Collect(window: seq<Fetch>, limit: int, produce: Fetch -> seq<string>): Outcome {
    var k := StopIndex(window, limit, produce, 0);
    if k < |window| && window[k].Failed? then Aborted
    else Collected(Gather(window[..k], produce))
  }

  /** `[msg for msg in records if msg.startswith(prefix)]` */
  function KeepPrefixed(records: seq<string>, prefix: string): (kept: seq<string>)
    ensures |kept| <= |records|
    ensures forall k | 0 <= k < |kept| :: prefix <= kept[k] && kept[k] in records
    ensures forall k | 0 <= k < |records| :: prefix <= records[k] ==> records[k] in kept
  {
    if records == [] then []
    else
      var init := KeepPrefixed(records[..|records| - 1], prefix);
      var last := records[|records| - 1];
      assert forall x | x in records[..|records| - 1] :: x in records;
      if prefix <= last then init + [last] else init
  }

  /** `s[:n]`, Python slicing, so a negative `n` drops `-n` elements from the end. */
  function Take(s: seq<string>, n: int): (t: seq<string>)
    ensures t <= s
    ensures n >= 0 ==> |t| == if n < |s| then n else |s|
    ensures n < 0 ==> |t| == if |s| + n > 0 then |s| + n else 0
  {
    if n >= 0 then (if n < |s| then s[..n] else s)
    else if |s| + n > 0 then s[..|s| + n] else []
  }

  /** The statements after the `try` block: the optional prefix filter, then `[:limit]`.
      Every entry left is one of the records and starts with the start number when one is
      given; without one the result is a prefix of the records. */
  function Finish(records: seq<string>, limit: int, startNumber: Option<string>): (result: seq<string>)
    ensures limit >= 0 ==> |result| <= limit
    ensures forall k | 0 <= k < |result| :: result[k] in records
    ensures Truthy(startNumber) ==> forall k | 0 <= k < |result| :: startNumber.value <= result[k]
    ensures !Truthy(startNumber) ==> result <= records
  {
    var kept := if Truthy(startNumber) then KeepPrefixed(records, startNumber.value) else records;
    Take(kept, limit)
  }

  /** What `scrape_messages(client, chat, limit, start_number)` returns. It never holds
      more than `limit` records, and nothing for a limit of zero or less. */
  function Scan(history: seq<Fetch>, limit: int, startNumber: Option<string>, findall: string -> seq<string>): (result: seq<string>)
    ensures limit >= 0 ==> |result| <= limit
    ensures limit <= 0 ==> result == []
  {
    FirstStepStops(ReadWindow(history, limit), limit, Producer(findall));
    match Collect(ReadWindow(history, limit), limit, Producer(findall))
    case Aborted => []
    case Collected(records) => Finish(records, limit, startNumber)
  }

  lemma GatherStep(steps: seq<Fetch>, i: nat, produce: Fetch -> seq<string>)
    requires i < |steps|
    ensures Gather(steps[..i + 1], produce) == Gather(steps[..i], produce) + produce(steps[i])
  {
    assert steps[..i + 1][..i] == steps[..i];
  }

  lemma AccumulatedStep(steps: seq<Fetch>, i: nat, findall: string -> seq<string>)
    requires i < |steps|
    ensures Accumulated(steps[..i + 1], findall) == Accumulated(steps[..i], findall) + Produced(steps[i], findall)
  {
    GatherStep(steps, i, Producer(findall));
  }

  /** The loop ends at the first step that stops it. */
  lemma StopIndexAt(window: seq<Fetch>, limit: int, produce: Fetch -> seq<string>, i: nat)
    requires i <= StopIndex(window, limit, produce, 0)
    requires i == |window| || StopsAt(window, limit, produce, i)
    ensures StopIndex(window, limit, produce, 0) == i
  {
    StopIndexIsFirst(window, limit, produce, 0);
  }

  /** A fetch that raises before the loop has ended aborts the scan. */
  lemma StopOnFailure(window: seq<Fetch>, limit: int, produce: Fetch -> seq<string>, i: nat)
    requires i < |window| && i <= StopIndex(window, limit, produce, 0)
    requires window[i].Failed?
    ensures Collect(window, limit, produce) == Aborted
  {
    StopIndexAt(window, limit, produce, i);
  }

  /** The loop ends with what it has gathered once `limit` records are reached or the
      window is read. */
  lemma StopWithRecords(window: seq<Fetch>, limit: int, produce: Fetch -> seq<string>, i: nat)
    requires i <= |window| && i <= StopIndex(window, limit, produce, 0)
    requires i == |window| || (window[i].Delivered? && |Gather(window[..i], produce)| >= limit)
    ensures Collect(window, limit, produce) == Collected(Gather(window[..i], produce))
  {
    StopIndexAt(window, limit, produce, i);
  }

  /** A delivered message read while fewer than `limit` records are gathered does not end
      the loop. */
  lemma ContinuePast(window: seq<Fetch>, limit: int, produce: Fetch -> seq<string>, i: nat)
    requires i < |window| && i <= StopIndex(window, limit, produce, 0)
    requires window[i].Delivered? && |Gather(window[..i], produce)| < limit
    ensures i + 1 <= StopIndex(window, limit, produce, 0)
  {
    StopIndexIsFirst(window, limit, produce, 0);
  }

  /** The body of the inner `for` loop: the checks on one match and its formatting. */
  method FormatOne(matchedMessage: string) returns (record: Option<string>)
    ensures record == FormatMatch(matchedMessage)
  {
    record := None;
    var values := DigitRuns(matchedMessage);
    if |values| == 4 {
      var card, mo, year, cvv := values[0], values[1], values[2], values[3];
      if (|card| == 15 || |card| == 16) && 1 <= Value(mo) <= 12 {
        year := LastTwo(year);
        record := Some(JoinWith([card, mo, year, cvv], '|'));
      }
    }
  }

  /** The inner `for` loop over one message's matches. */
  method FormatMatches(matched: seq<string>) returns (formatted: seq<string>)
    ensures formatted == FormatAll(matched)
  {
    formatted := [];
    for j := 0 to |matched|
      invariant formatted == FormatAll(matched[..j])
    {
      assert matched[..j + 1][..j] == matched[..j];
      var record := FormatOne(matched[j]);
      if record.Some? {
        formatted := formatted + [record.value];
      }
    }
    assert matched[..|matched|] == matched;
  }

  /** One delivered message: its text, or failing that its caption, searched and its
      matches formatted. `produce` names what each message contributes; it is tied to
      `Produced` message by message, which keeps the definition of `Produced` out of the
      proofs about the loop (`ScrapeMessages` passes `Producer(findall)`). */
  method ReadMessage(message: Message, findall: string -> seq<string>, ghost produce: Fetch -> seq<string>)
    returns (formatted: seq<string>)
    requires forall m {:trigger Produced(Delivered(m), findall)} :: produce(Delivered(m)) == Produced(Delivered(m), findall)
    ensures formatted == produce(Delivered(message))
  {
    formatted := [];
    var text := if Truthy(message.text) then message.text else message.caption;
    if Truthy(text) {
      var matched := findall(text.value);
      if matched != [] {
        formatted := FormatMatches(matched);
      }
    }
    assert formatted == Produced(Delivered(message), findall);
  }

  /** The `try` block of `scrape_messages`: the history loop, ending in the records
      gathered or, when fetching a message raises, in `Aborted`. `produce` is as in
      `ReadMessage`. */
  method ReadHistory(history: seq<Fetch>, limit: int, findall: string -> seq<string>, ghost produce: Fetch -> seq<string>)
    returns (outcome: Outcome)
    requires forall m {:trigger Produced(Delivered(m), findall)} :: produce(Delivered(m)) == Produced(Delivered(m), findall)
    ensures outcome == Collect(ReadWindow(history, limit), limit, produce)
  {
    ghost var window := ReadWindow(history, limit);
    var budget := FetchCount(history, limit);
    var messages := [];
    var count := 0;
    var i := 0;
    while i < budget
      invariant i <= budget == |window|
      invariant i <= StopIndex(window, limit, produce, 0)
      invariant messages == Gather(window[..i], produce)
      invariant count == |messages|
    {
      assert window[i] == history[i];
      match history[i]
      case Failed =>
        StopOnFailure(window, limit, produce, i);
        return Aborted;
      case Delivered(message) =>
        if count >= limit {
          StopWithRecords(window, limit, produce, i);
          break;
        }
        ContinuePast(window, limit, produce, i);
        var formatted := ReadMessage(message, findall, produce);
        assert formatted == produce(window[i]);
        messages := messages + formatted;
        count := count + |formatted|;
        GatherStep(window, i, produce);
        i := i + 1;
    }
    if i == budget {
      StopWithRecords(window, limit, produce, i);
    }
    outcome := Collected(messages);
  }

  method ScrapeMessages(history: seq<Fetch>, limit: int, startNumber: Option<string>, findall: string -> seq<string>)
    returns (messages: seq<string>)
    ensures messages == Scan(history, limit, startNumber, findall)
  {
    var outcome := ReadHistory(history, limit, findall, Producer(findall));
    if outcome.Aborted? {
      return [];
    }
    messages := outcome.records;
    if Truthy(startNumber) {
      messages := KeepPrefixed(messages, startNumber.value);
    }
    messages := Take(messages, limit);
  }

  // ---------------------------------------------------------------------------
  // Properties of the scan.

  /** A message's caption is read only when its text is empty or absent. */
  lemma CaptionIgnoredWithText(m: Message, caption: Option<string>, findall: string -> seq<string>)
    requires Truthy(m.text)
    ensures Produced(Delivered(m), findall) == Produced(Delivered(m.(caption := caption)), findall)
  {
  }

  /** A message without text is read through its caption as if the caption were its text. */
  lemma CaptionStandsInForText(m: Message, findall: string -> seq<string>)
    requires !Truthy(m.text)
    ensures Produced(Delivered(m), findall) == Produced(Delivered(Message(m.caption, None)), findall)
  {
  }

  /** Reading one more step appends what that step produces. */
  lemma AccumulatedSnoc(steps: seq<Fetch>, f: Fetch, findall: string -> seq<string>)
    ensures Accumulated(steps + [f], findall) == Accumulated(steps, findall) + Produced(f, findall)
  {
    assert (steps + [f])[..|steps|] == steps;
  }

  lemma {:induction false} GatherAppend(a: seq<Fetch>, b: seq<Fetch>, produce: Fetch -> seq<string>)
    ensures Gather(a + b, produce) == Gather(a, produce) + Gather(b, produce)
    decreases |b|
  {
    if b == [] {
      assert a + b == a;
    } else {
      var init := b[..|b| - 1];
      assert (a + b)[..|a + b| - 1] == a + init;
      assert (a + b)[|a + b| - 1] == b[|b| - 1];
      GatherAppend(a, init, produce);
    }
  }

  /** `messages.extend` over consecutive runs of the history: the records of two runs read
      one after the other are the records of the first followed by those of the second. */
  lemma AccumulatedAppend(a: seq<Fetch>, b: seq<Fetch>, findall: string -> seq<string>)
    ensures Accumulated(a + b, findall) == Accumulated(a, findall) + Accumulated(b, findall)
  {
    GatherAppend(a, b, Producer(findall));
  }

  /** A message with neither text nor caption adds no record. */
  lemma EmptyMessageAddsNothing(steps: seq<Fetch>, m: Message, findall: string -> seq<string>)
    requires !Truthy(m.text) && !Truthy(m.caption)
    ensures Accumulated(steps + [Delivered(m)], findall) == Accumulated(steps, findall)
  {
    AccumulatedSnoc(steps, Delivered(m), findall);
  }

  /** Every accumulated record has the record shape. */
  lemma {:induction false} AccumulatedAreRecords(steps: seq<Fetch>, findall: string -> seq<string>)
    ensures forall k | 0 <= k < |Accumulated(steps, findall)| :: IsRecord(Accumulated(steps, findall)[k])
  {
    if steps != [] {
      var init := steps[..|steps| - 1];
      AccumulatedAreRecords(init, findall);
      AccumulatedStep(steps, |steps| - 1, findall);
      assert steps[..|steps|] == steps;
    }
  }

  lemma {:induction false} GatherGrows(steps: seq<Fetch>, a: nat, b: nat, produce: Fetch -> seq<string>)
    requires a <= b <= |steps|
    ensures Gather(steps[..a], produce) <= Gather(steps[..b], produce)
    decreases b - a
  {
    if a < b {
      GatherGrows(steps, a, b - 1, produce);
      GatherStep(steps, b - 1, produce);
    }
  }

  /** Reading further only appends: the records of a shorter run of the history are a
      prefix of those of a longer one. */
  lemma AccumulatedGrows(steps: seq<Fetch>, a: nat, b: nat, findall: string -> seq<string>)
    requires a <= b <= |steps|
    ensures Accumulated(steps[..a], findall) <= Accumulated(steps[..b], findall)
  {
    GatherGrows(steps, a, b, Producer(findall));
  }

  /** The loop reads while fewer than `limit` records are gathered: the records gathered
      are the first records of the window, either all of them or at least `limit`, and
      they exceed `limit` by less than what the last message read contributed. */
  lemma CollectStopsAtLimit(window: seq<Fetch>, limit: int, produce: Fetch -> seq<string>)
    requires Collect(window, limit, produce).Collected?
    ensures var records := Collect(window, limit, produce).records;
      && records <= Gather(window, produce)
      && (|records| >= limit || records == Gather(window, produce))
    ensures var k := StopIndex(window, limit, produce, 0);
      k > 0 ==> |Collect(window, limit, produce).records| < limit + |produce(window[k - 1])|
  {
    var k := StopIndex(window, limit, produce, 0);
    if k < |window| {
      assert StopsAt(window, limit, produce, k) by {
        StopIndexIsFirst(window, limit, produce, 0);
      }
    }
    GatherGrows(window, k, |window|, produce);
    assert window[..|window|] == window;
    if k > 0 {
      assert !StopsAt(window, limit, produce, k - 1) by {
        StopIndexIsFirst(window, limit, produce, 0);
      }
      GatherStep(window, k - 1, produce);
    }
  }

  /** With a limit of zero or less, the loop stops at its first step. */
  lemma FirstStepStops(window: seq<Fetch>, limit: int, produce: Fetch -> seq<string>)
    ensures limit <= 0 && window != [] ==> StopIndex(window, limit, produce, 0) == 0
  {
    if limit <= 0 && window != [] {
      assert window[..0] == [];
      assert StopsAt(window, limit, produce, 0);
    }
  }

  /** `idx` places each entry of `a` at a position of `b` holding the same record, in
      increasing order: `a` is `b` with some entries left out. */
  predicate Embeds(a: seq<string>, b: seq<string>, idx: seq<nat>) {
    && |idx| == |a|
    && (forall i, j | 0 <= i < j < |idx| :: idx[i] < idx[j])
    && (forall i | 0 <= i < |idx| :: idx[i] < |b| && a[i] == b[idx[i]])
  }

  lemma IdentityEmbeds(a: seq<string>) returns (idx: seq<nat>)
    ensures Embeds(a, a, idx)
  {
    idx := seq(|a|, i requires 0 <= i < |a| => i as nat);
  }

  /** The filter keeps records in their order: its result sits inside its input. */
  lemma {:induction false} KeepPrefixedEmbeds(records: seq<string>, prefix: string) returns (idx: seq<nat>)
    ensures Embeds(KeepPrefixed(records, prefix), records, idx)
  {
    if records == [] {
      idx := [];
    } else {
      var init := records[..|records| - 1];
      idx := KeepPrefixedEmbeds(init, prefix);
      if prefix <= records[|records| - 1] {
        idx := idx + [|records| - 1];
      }
    }
  }

  /** The filter keeps every prefixed record as many times as it occurs, and no other. */
  lemma {:induction false} KeepPrefixedCounts(records: seq<string>, prefix: string)
    ensures forall x :: multiset(KeepPrefixed(records, prefix))[x] == if prefix <= x then multiset(records)[x] else 0
  {
    if records != [] {
      var init := records[..|records| - 1];
      var last := records[|records| - 1];
      KeepPrefixedCounts(init, prefix);
      assert records == init + [last];
      assert multiset(records) == multiset(init) + multiset{last};
    }
  }

  /** Filtering two runs of records one after the other is filtering their concatenation. */
  lemma {:induction false} KeepPrefixedAppend(a: seq<string>, b: seq<string>, prefix: string)
    ensures KeepPrefixed(a + b, prefix) == KeepPrefixed(a, prefix) + KeepPrefixed(b, prefix)
    decreases |b|
  {
    if b == [] {
      assert a + b == a;
    } else {
      var init := b[..|b| - 1];
      assert (a + b)[..|a + b| - 1] == a + init;
      assert (a + b)[|a + b| - 1] == b[|b| - 1];
      KeepPrefixedAppend(a, init, prefix);
    }
  }

  /** An embedding survives cutting the embedded list short and extending the target. */
  lemma EmbedsPrefix(kept: seq<string>, records: seq<string>, all: seq<string>, idx: seq<nat>, t: seq<string>)
    requires Embeds(kept, records, idx)
    requires t <= kept && records <= all
    ensures Embeds(t, all, idx[..|t|])
  {
    forall i | 0 <= i < |t| ensures idx[i] < |all| && t[i] == all[idx[i]] {
      assert t[i] == kept[i] == records[idx[i]];
    }
  }

  /** The positions, in the records read, of the entries `scrape_messages` returns. */
  lemma ScanPositions(history: seq<Fetch>, limit: int, startNumber: Option<string>, findall: string -> seq<string>)
    returns (idx: seq<nat>)
    ensures Embeds(Scan(history, limit, startNumber, findall), Accumulated(ReadWindow(history, limit), findall), idx)
  {
    var window := ReadWindow(history, limit);
    var all := Accumulated(window, findall);
    match Collect(window, limit, Producer(findall))
    case Aborted =>
      idx := [];
    case Collected(records) =>
      CollectStopsAtLimit(window, limit, Producer(findall));
      var kept := if Truthy(startNumber) then KeepPrefixed(records, startNumber.value) else records;
      var full: seq<nat>;
      if Truthy(startNumber) {
        full := KeepPrefixedEmbeds(records, startNumber.value);
      } else {
        full := IdentityEmbeds(records);
      }
      var result := Take(kept, limit);
      EmbedsPrefix(kept, records, all, full, result);
      idx := full[..|result|];
  }

  /** With a start number, every returned entry starts with it. */
  lemma ScanKeepsPrefix(history: seq<Fetch>, limit: int, startNumber: Option<string>, findall: string -> seq<string>)
    requires Truthy(startNumber)
    ensures forall k | 0 <= k < |Scan(history, limit, startNumber, findall)| ::
      startNumber.value <= Scan(history, limit, startNumber, findall)[k]
  {
    var window := ReadWindow(history, limit);
    match Collect(window, limit, Producer(findall))
    case Aborted =>
    case Collected(records) =>
      var kept := KeepPrefixed(records, startNumber.value);
      var result := Take(kept, limit);
      forall k | 0 <= k < |result| ensures startNumber.value <= result[k] {
        assert result[k] == kept[k];
      }
  }

  /** Every returned entry is a well-formed record read from the window, and starts with
      `start_number` when one is given; the result keeps the order in which the records
      were read and never repeats one more often than it was read (it embeds into the
      records of the window). */
  lemma ScanRecords(history: seq<Fetch>, limit: int, startNumber: Option<string>, findall: string -> seq<string>)
    ensures forall k | 0 <= k < |Scan(history, limit, startNumber, findall)| ::
      var r := Scan(history, limit, startNumber, findall)[k];
      && IsRecord(r)
      && r in Accumulated(ReadWindow(history, limit), findall)
      && (Truthy(startNumber) ==> startNumber.value <= r)
    ensures exists idx :: Embeds(Scan(history, limit, startNumber, findall), Accumulated(ReadWindow(history, limit), findall), idx)
  {
    var all := Accumulated(ReadWindow(history, limit), findall);
    var result := Scan(history, limit, startNumber, findall);
    var idx := ScanPositions(history, limit, startNumber, findall);
    AccumulatedAreRecords(ReadWindow(history, limit), findall);
    if Truthy(startNumber) {
      ScanKeepsPrefix(history, limit, startNumber, findall);
    }
    forall k | 0 <= k < |result| ensures IsRecord(result[k]) && result[k] in all {
      assert result[k] == all[idx[k]];
    }
  }

  /** While every step was delivered and fewer than `limit` records were gathered before
      the step preceding `j`, no step before `j` ends the loop. */
  lemma NoStopBefore(window: seq<Fetch>, limit: int, produce: Fetch -> seq<string>, j: nat)
    requires j <= |window|
    requires forall m | 0 <= m < j :: window[m].Delivered?
    requires j == 0 || |Gather(window[..j - 1], produce)| < limit
    ensures forall m | 0 <= m < j :: !StopsAt(window, limit, produce, m)
  {
    forall m | 0 <= m < j ensures !StopsAt(window, limit, produce, m) {
      GatherGrows(window, m, j - 1, produce);
    }
  }

  /** A failing read of the history discards everything: if the steps before `j` were
      delivered, the loop had not yet gathered `limit` records before step `j - 1`, and
      fetching step `j` raises, the result is empty. */
  lemma ScanFailureDiscards(history: seq<Fetch>, limit: int, startNumber: Option<string>, findall: string -> seq<string>, j: nat)
    requires j < |ReadWindow(history, limit)| && history[j].Failed?
    requires forall m | 0 <= m < j :: history[m].Delivered?
    requires j == 0 || |Accumulated(history[..j - 1], findall)| < limit
    ensures Scan(history, limit, startNumber, findall) == []
  {
    var window := ReadWindow(history, limit);
    assert forall m | 0 <= m < |window| :: window[m] == history[m];
    if j > 0 {
      assert window[..j - 1] == history[..j - 1];
    }
    var produce := Producer(findall);
    NoStopBefore(window, limit, produce, j);
    StopIndexIsFirst(window, limit, produce, 0);
    assert StopsAt(window, limit, produce, j);
    assert StopIndex(window, limit, produce, 0) == j;
  }

  /** At most `limit * 10` messages are read: histories that agree on their first
      `limit * 10` steps give the same result. */
  lemma ScanReadsWindowOnly(h1: seq<Fetch>, h2: seq<Fetch>, limit: int, startNumber: Option<string>, findall: string -> seq<string>)
    requires limit > 0 && |h1| >= limit * 10 && |h2| >= limit * 10
    requires h1[..limit * 10] == h2[..limit * 10]
    ensures Scan(h1, limit, startNumber, findall) == Scan(h2, limit, startNumber, findall)
  {
    assert ReadWindow(h1, limit) == h1[..limit * 10];
    assert ReadWindow(h2, limit) == h2[..limit * 10];
  }
}
