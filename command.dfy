/** The `/scr` command handler around the scan: argument checks, the per-caller amount
    ceiling, the optional start number, reduction of `https://t.me/` links to their last
    path segment, and the reply (a file named after the record count and the chat name,
    or a "no card found" message). Chat lookup, sending and file I/O are left to the
    chat client and are not part of this module. */
module Command {
  import opened Wrappers
  import opened Strings
  import opened Dedupe

  const LinkPrefix: string := "https://t.me/"

  /** The bot's configuration: `ADMIN_IDS`, `DEFAULT_LIMIT`, `ADMIN_LIMIT`. */
  datatype Config = Config(adminIds: set<int>, defaultLimit: int, adminLimit: int)

  /** Why a command is turned down before any scanning: a wrong number of arguments, an
      amount `int()` cannot read, a message without a sender (both uncaught exceptions in
      the handler), or an amount over the caller's ceiling. */
  datatype Rejection = Usage | BadAmount | AnonymousSender | OverLimit(maxLimit: int)

  /** What a valid command asks the scanner for. */
  datatype Request = Request(channel: string, limit: int, startNumber: Option<string>)

  /** What the handler sends back after a scan. */
  datatype Reply =
    | NoCardsFound
    | SendDocument(fileName: string, lines: seq<string>, duplicatesRemoved: int)

  /** `message.text.split()[1:]` */
  function Arguments(text: string): (args: seq<string>)
    ensures forall k | 0 <= k < |args| :: args[k] != [] && All(args[k], NotSpace)
  {
    var words := Tokens(text);
    if words == [] then [] else words[1..]
  }

  /** `ADMIN_LIMIT if caller in ADMIN_IDS else DEFAULT_LIMIT` */
  function MaxLimit(caller: int, config: Config): int {
    if caller in config.adminIds then config.adminLimit else config.defaultLimit
  }

  /** A `https://t.me/...` link is reduced to what follows its last `/`; anything else is
      used as given. */
  function ChannelUsername(identifier: string): (name: string)
    ensures !(LinkPrefix <= identifier) ==> name == identifier
    ensures LinkPrefix <= identifier ==>
      && '/' !in name
      && IsSuffix(name, identifier)
      && |name| < |identifier|
      && identifier[|identifier| - |name| - 1] == '/'
  {
    if LinkPrefix <= identifier then
      assert identifier[6] == LinkPrefix[6] == '/';
      LastPieceOfSplit(identifier, '/');
      Last(SplitOn(identifier, '/'))
    else identifier
  }

  /** The argument handling of `scr_cmd`, in the order the handler performs it: the
      argument count, `int()` of the amount, the sender's id, the ceiling. An accepted
      request never exceeds the sender's ceiling, and its start number, when there is
      one, is a non-empty blank-free word, so the prefix filter always applies to it. */
  function ParseScr(text: string, sender: Option<int>, config: Config): (r: Result<Request, Rejection>)
    ensures r.Ok? ==> sender.Some? && r.value.limit <= MaxLimit(sender.value, config)
    ensures r.Ok? && r.value.startNumber.Some? ==>
      r.value.startNumber.value != [] && All(r.value.startNumber.value, NotSpace)
  {
    var args := Arguments(text);
    if |args| < 2 || |args| > 3 then Err(Usage)
    else
      match ParseInt(args[1])
      case None => Err(BadAmount)
      case Some(limit) =>
        if sender.None? then Err(AnonymousSender)
        else
          var maxLimit := MaxLimit(sender.value, config);
          if limit > maxLimit then Err(OverLimit(maxLimit))
          else Ok(Request(ChannelUsername(args[0]), limit, if |args| == 3 then Some(args[2]) else None))
  }

  /** `name.replace(' ', '_')` */
  function ReplaceSpaces(name: string): (r: string)
    ensures |r| == |name|
    ensures forall i | 0 <= i < |name| :: r[i] == if name[i] == ' ' then '_' else name[i]
  {
    if name == [] then []
    else [if name[0] == ' ' then '_' else name[0]] + ReplaceSpaces(name[1..])
  }

  /** `f"x{count}_{name.replace(' ', '_')}.txt"`: no blank; `x`, the count as `str()`
      writes it, `_`, the chat name with its blanks turned into `_`, then `.txt`; its
      first digit run reads back as the count. */
  function FileName(count: nat, channelName: string): (f: string)
    ensures |f| == |DecimalString(count)| + |channelName| + 6
    ensures var d := DecimalString(count);
      && f[..|d| + 2] == "x" + d + "_"
      && f[|d| + 2..|f| - 4] == ReplaceSpaces(channelName)
    ensures ' ' !in f
    ensures f != [] && f[0] == 'x'
    ensures IsSuffix(".txt", f)
    ensures |DigitRuns(f)| >= 1 && DigitRuns(f)[0] == DecimalString(count)
    ensures Value(DigitRuns(f)[0]) == count
  {
    FileNameParts(DecimalString(count), ReplaceSpaces(channelName), channelName);
    ValueOfDecimal(count);
    "x" + DecimalString(count) + "_" + ReplaceSpaces(channelName) + ".txt"
  }

  /** Deduplicate the scan result and answer: a file exactly when the scan found
      something; it lists every distinct record once, the count of removed duplicates
      makes up the rest, and the file is named after the number of lines. */
  function Report(scraped: seq<string>, channelName: string): (reply: Reply)
    ensures reply.SendDocument? <==> scraped != []
    ensures reply.SendDocument? ==>
      && NoDuplicates(reply.lines)
      && (forall x :: x in reply.lines <==> x in scraped)
      && |reply.lines| + reply.duplicatesRemoved == |scraped|
      && reply.fileName == FileName(|reply.lines|, channelName)
  {
    var (unique, duplicatesRemoved) := RemoveDuplicates(scraped);
    if unique != [] then SendDocument(FileName(|unique|, channelName), unique, duplicatesRemoved)
    else NoCardsFound
  }

  // ---------------------------------------------------------------------------
  // Helpers about the shape of command texts and file names.

  lemma DigitsAreNotSpace(s: string)
    requires All(s, IsDigit)
    ensures All(s, NotSpace)
  {
    forall i | 0 <= i < |s| ensures NotSpace(s[i]) {
      assert IsDigit(s[i]);
    }
  }

  /** A word: what `str.split()` returns as one piece. */
  predicate IsWord(w: string) {
    w != [] && All(w, NotSpace)
  }

  /** The arguments of a blank-joined command are the words after the first. */
  lemma ArgumentsOfCommand(words: seq<string>)
    requires |words| >= 1
    requires forall k | 0 <= k < |words| :: IsWord(words[k])
    ensures Arguments(JoinWith(words, ' ')) == words[1..]
  {
    RunsOfJoin(words, ' ', NotSpace);
  }

  /** The amount as typed: an optional `-` before the decimal digits of `n`. */
  function AmountText(n: nat, negative: bool): (s: string)
    ensures IsWord(s)
  {
    DigitsAreNotSpace(DecimalString(n));
    if negative then "-" + DecimalString(n) else DecimalString(n)
  }

  function AmountValue(n: nat, negative: bool): int {
    if negative then -(n as int) else n
  }

  lemma ParseAmount(n: nat, negative: bool)
    ensures ParseInt(AmountText(n, negative)) == Some(AmountValue(n, negative))
  {
    ParseIntOfDecimal(n);
  }

  /** The arguments of a command typed with runs of blanks between its words, and blanks
      before and after them, are still the words after the first. */
  lemma ArgumentsOfSpacedCommand(lead: string, words: seq<string>, blanks: seq<string>, trail: string)
    requires |words| == |blanks| + 1
    requires forall k | 0 <= k < |words| :: IsWord(words[k])
    requires forall k | 0 <= k < |blanks| :: blanks[k] != [] && All(blanks[k], IsSpace)
    requires All(lead, IsSpace) && All(trail, IsSpace)
    ensures Arguments(lead + Interleave(words, blanks) + trail) == words[1..]
  {
    TokensOfSpacedWords(lead, words, blanks, trail);
  }

  lemma FileNameParts(digits: string, replaced: string, channelName: string)
    requires digits != [] && All(digits, IsDigit)
    requires replaced == ReplaceSpaces(channelName)
    ensures var f := "x" + digits + "_" + replaced + ".txt";
      && ' ' !in f
      && f[0] == 'x'
      && IsSuffix(".txt", f)
      && |DigitRuns(f)| >= 1 && DigitRuns(f)[0] == digits
  {
    var tail := replaced + ".txt";
    var f := "x" + digits + "_" + replaced + ".txt";
    assert f == ['x'] + (digits + (['_'] + tail));
    FileNameCount(digits, tail);
    FileNameNoBlank(digits, replaced, channelName);
    assert f[|f| - 4..] == ".txt";
  }

  lemma FileNameNoBlank(digits: string, replaced: string, channelName: string)
    requires All(digits, IsDigit)
    requires replaced == ReplaceSpaces(channelName)
    ensures ' ' !in "x" + digits + "_" + replaced + ".txt"
  {
    DigitsAreNotSpace(digits);
    NoBlankInReplaced(channelName);
    assert ' ' !in digits;
  }

  lemma FileNameCount(digits: string, tail: string)
    requires digits != [] && All(digits, IsDigit)
    ensures |DigitRuns(['x'] + (digits + (['_'] + tail)))| >= 1
    ensures DigitRuns(['x'] + (digits + (['_'] + tail)))[0] == digits
  {
    RunsSkip('x', digits + (['_'] + tail), IsDigit);
    RunsOfPrefix(digits, ['_'] + tail, IsDigit);
  }

  lemma NoBlankInReplaced(name: string)
    ensures ' ' !in ReplaceSpaces(name)
  {
    var r := ReplaceSpaces(name);
    forall i | 0 <= i < |r| ensures r[i] != ' ' {
    }
  }

  // ---------------------------------------------------------------------------
  // Properties of the command handling, stated on the text the user types.

  /** `/scr` with fewer than two or more than three argument words is answered with the
      usage message, whatever the words are and whoever sends it. */
  lemma {:induction false} ParseScrUsage(command: string, args: seq<string>, sender: Option<int>, config: Config)
    requires IsWord(command)
    requires forall k | 0 <= k < |args| :: IsWord(args[k])
    requires |args| < 2 || |args| > 3
    ensures ParseScr(JoinWith([command] + args, ' '), sender, config) == Err(Usage)
  {
    ArgumentsOfCommand([command] + args);
    assert ([command] + args)[1..] == args;
  }

  /** `/scr <chat> <amount> [<start>]` where `int()` cannot read the amount fails on the
      amount, before the sender is looked at. */
  lemma {:induction false} ParseScrBadAmount(command: string, chat: string, amount: string, start: Option<string>, sender: Option<int>, config: Config)
    requires IsWord(command) && IsWord(chat) && IsWord(amount)
    requires start.Some? ==> IsWord(start.value)
    requires !IsNumeral(amount)
    ensures ParseScr(JoinWith([command, chat, amount] + (if start.Some? then [start.value] else []), ' '), sender, config)
      == Err(BadAmount)
  {
    var words := [command, chat, amount] + (if start.Some? then [start.value] else []);
    ArgumentsOfCommand(words);
  }

  /** A well-formed command without a sender is refused once the amount has been read. */
  lemma {:induction false} ParseScrAnonymous(command: string, chat: string, n: nat, negative: bool, start: Option<string>, config: Config)
    requires IsWord(command) && IsWord(chat)
    requires start.Some? ==> IsWord(start.value)
    ensures ParseScr(JoinWith([command, chat, AmountText(n, negative)] + (if start.Some? then [start.value] else []), ' '), None, config)
      == Err(AnonymousSender)
  {
    var words := [command, chat, AmountText(n, negative)] + (if start.Some? then [start.value] else []);
    ArgumentsOfCommand(words);
    ParseAmount(n, negative);
  }

  /** `/scr <chat> <n> [<start>]` with `n` above the sender's ceiling is refused with that
      ceiling: `ADMIN_LIMIT` for an admin, `DEFAULT_LIMIT` for anyone else. */
  lemma {:induction false} ParseScrOverLimit(command: string, chat: string, n: nat, start: Option<string>, caller: int, config: Config)
    requires IsWord(command) && IsWord(chat)
    requires start.Some? ==> IsWord(start.value)
    requires n > MaxLimit(caller, config)
    ensures var ceiling := if caller in config.adminIds then config.adminLimit else config.defaultLimit;
      ParseScr(JoinWith([command, chat, AmountText(n, false)] + (if start.Some? then [start.value] else []), ' '), Some(caller), config)
      == Err(OverLimit(ceiling))
  {
    var words := [command, chat, AmountText(n, false)] + (if start.Some? then [start.value] else []);
    ArgumentsOfCommand(words);
    ParseAmount(n, false);
  }

  /** A command typed as `/scr <chat> <amount>` or `/scr <chat> <amount> <start>` with
      blank-free words and an amount (possibly negative) within the sender's ceiling is
      accepted with exactly those values. */
  lemma {:induction false} ParseScrRoundTrip(command: string, chat: string, n: nat, negative: bool, start: Option<string>, caller: int, config: Config)
    requires IsWord(command) && IsWord(chat)
    requires start.Some? ==> IsWord(start.value)
    requires AmountValue(n, negative) <= MaxLimit(caller, config)
    ensures ParseScr(JoinWith([command, chat, AmountText(n, negative)] + (if start.Some? then [start.value] else []), ' '), Some(caller), config)
      == Ok(Request(ChannelUsername(chat), AmountValue(n, negative), start))
  {
    var words := [command, chat, AmountText(n, negative)] + (if start.Some? then [start.value] else []);
    var args := Arguments(JoinWith(words, ' '));
    ArgumentsOfCommand(words);
    assert args == words[1..];
    assert args[0] == chat && args[1] == AmountText(n, negative);
    assert |args| == 3 <==> start.Some?;
    assert |args| == 3 ==> args[2] == start.value;
    ParseAmount(n, negative);
  }

  /** A `https://t.me/<name>` link with a slash-free name reduces to the name. */
  lemma ChannelLinkRoundTrip(name: string)
    requires '/' !in name
    ensures ChannelUsername(LinkPrefix + name) == name
  {
    var pieces := ["https:", "", "t.me", name];
    JoinOfFour("https:", "", "t.me", name, '/');
    assert LinkPrefix + name == "https:" + ['/'] + ("" + ['/'] + ("t.me" + ['/'] + name));
    assert forall k | 0 <= k < 4 :: '/' !in pieces[k];
    SplitOfJoin(pieces, '/');
  }

  /** A link with further path segments reduces to its last one, e.g.
      `https://t.me/c/<chat>/<post>` to `<post>`. */
  lemma ChannelLinkLastSegment(path: string, last: string)
    requires '/' !in last
    ensures ChannelUsername(LinkPrefix + path + "/" + last) == last
  {
    var s := LinkPrefix + path + "/" + last;
    assert LinkPrefix <= s;
    var name := ChannelUsername(s);
    // `name` is slash-free and directly preceded by a `/`, so it is exactly `last`.
    assert s[|s| - |last| - 1] == '/';
    assert name == s[|s| - |name|..] == last;
  }
}
