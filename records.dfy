/** Per-match record formatting of `scrape_messages`: a substring found by the card pattern
    is split into its digit runs, kept only when there are exactly four of them, the first
    15 or 16 digits long and the second a month from 1 to 12, and written out as
    `card|month|year|cvv` with the year cut to its last two characters. */
module Records {
  import opened Wrappers
  import opened Strings

  /** `year[-2:]`: at most two characters, taken from the end; a short year is kept whole. */
  function LastTwo(year: string): (r: string)
    ensures |r| <= 2 && IsSuffix(r, year)
    ensures |year| <= 2 ==> r == year
    ensures |year| >= 2 ==> |r| == 2
  {
    if |year| <= 2 then year else year[|year| - 2..]
  }

  /** One regex match to at most one record. A match yields a record exactly when its
      digit runs pass the count, card-length and month checks; the record's `|`-fields are
      then the card, the month, the last two characters of the year and the cvv,
      unchanged, and it has the record shape. */
  function FormatMatch(matched: string): (r: Option<string>)
    ensures var v := DigitRuns(matched);
      r.Some? <==> |v| == 4 && (|v[0]| == 15 || |v[0]| == 16) && 1 <= Value(v[1]) <= 12
    ensures r.Some? ==>
      var v := DigitRuns(matched);
      && SplitOn(r.value, '|') == [v[0], v[1], LastTwo(v[2]), v[3]]
      && IsRecord(r.value)
  {
    var values := DigitRuns(matched);
    if |values| == 4 && (|values[0]| == 15 || |values[0]| == 16) && 1 <= Value(values[1]) <= 12 then
      RecordOfFields(values[0], values[1], values[2], values[3]);
      Some(JoinWith([values[0], values[1], LastTwo(values[2]), values[3]], '|'))
    else
      None
  }

  /** The shape every emitted record has: four `|`-separated non-empty digit fields, the
      card number 15 or 16 digits, the month 1..12, the year at most two digits. */
  predicate IsRecord(r: string) {
    var f := SplitOn(r, '|');
    && |f| == 4
    && (forall k | 0 <= k < 4 :: f[k] != [] && All(f[k], IsDigit))
    && (|f[0]| == 15 || |f[0]| == 16)
    && 1 <= Value(f[1]) <= 12
    && |f[2]| <= 2
  }

  /** The formatted records of a list of matches, in match order (the inner `for` loop). */
  function FormatAll(matches: seq<string>): (records: seq<string>)
    ensures |records| <= |matches|
  {
    if matches == [] then []
    else
      FormatAll(matches[..|matches| - 1])
      + match FormatMatch(matches[|matches| - 1]) {
          case Some(r) => [r]
          case None => []
        }
  }

  lemma DigitsHaveNoBar(s: string)
    requires All(s, IsDigit)
    ensures '|' !in s
  {
  }

  lemma SuffixOfDigits(t: string, s: string)
    requires IsSuffix(t, s) && All(s, IsDigit)
    ensures All(t, IsDigit)
  {
    forall i | 0 <= i < |t| ensures IsDigit(t[i]) {
      assert t[i] == s[|s| - |t| + i];
    }
  }

  /** The four digit runs of a passing match, joined with `|` after the year is cut,
      split back into those fields and form a record. */
  lemma RecordOfFields(card: string, mo: string, year: string, cvv: string)
    requires card != [] && mo != [] && year != [] && cvv != []
    requires All(card, IsDigit) && All(mo, IsDigit) && All(year, IsDigit) && All(cvv, IsDigit)
    requires (|card| == 15 || |card| == 16) && 1 <= Value(mo) <= 12
    ensures SplitOn(JoinWith([card, mo, LastTwo(year), cvv], '|'), '|') == [card, mo, LastTwo(year), cvv]
    ensures IsRecord(JoinWith([card, mo, LastTwo(year), cvv], '|'))
  {
    var fields := [card, mo, LastTwo(year), cvv];
    SuffixOfDigits(LastTwo(year), year);
    forall k | 0 <= k < 4 ensures fields[k] != [] && All(fields[k], IsDigit) && '|' !in fields[k] {
      DigitsHaveNoBar(fields[k]);
    }
    SplitOfJoin(fields, '|');
  }

  /** Formatting is idempotent: a record, read back as a match, yields itself (so a
      two-digit year is left as it is). */
  lemma RecordIsFixedPoint(r: string)
    requires IsRecord(r)
    ensures FormatMatch(r) == Some(r)
  {
    var f := SplitOn(r, '|');
    JoinOfSplit(r, '|');
    assert f == [f[0], f[1], f[2], f[3]];
    RunsOfJoin(f, '|', IsDigit);
    assert LastTwo(f[2]) == f[2];
  }

  lemma FormatMatchIdempotent(matched: string)
    requires FormatMatch(matched).Some?
    ensures FormatMatch(FormatMatch(matched).value) == FormatMatch(matched)
  {
    RecordIsFixedPoint(FormatMatch(matched).value);
  }

  /** Every record of a message has the record shape and comes from one of its matches. */
  lemma {:induction false} FormatAllSound(matches: seq<string>)
    ensures forall k | 0 <= k < |FormatAll(matches)| ::
      IsRecord(FormatAll(matches)[k])
      && exists j | 0 <= j < |matches| :: FormatMatch(matches[j]) == Some(FormatAll(matches)[k])
  {
    if matches != [] {
      var init := matches[..|matches| - 1];
      var last := matches[|matches| - 1];
      FormatAllSound(init);
      var records := FormatAll(matches);
      var before := FormatAll(init);
      forall k | 0 <= k < |records|
        ensures IsRecord(records[k])
        ensures exists j | 0 <= j < |matches| :: FormatMatch(matches[j]) == Some(records[k])
      {
        if k < |before| {
          assert records[k] == before[k];
          var j :| 0 <= j < |init| && FormatMatch(init[j]) == Some(before[k]);
          assert matches[j] == init[j];
        } else {
          assert FormatMatch(matches[|matches| - 1]) == Some(records[k]);
        }
      }
    }
  }

  /** Malformed matches only mean fewer records: every match gives a record exactly when
      none of them is malformed. */
  lemma {:induction false} FormatAllComplete(matches: seq<string>)
    ensures |FormatAll(matches)| == |matches| <==> forall j | 0 <= j < |matches| :: FormatMatch(matches[j]).Some?
  {
    if forall j | 0 <= j < |matches| :: FormatMatch(matches[j]).Some? {
      FormatAllOfPassing(matches);
    } else {
      var j :| 0 <= j < |matches| && FormatMatch(matches[j]).None?;
      FormatAllDropsFailing(matches, j);
    }
  }

  lemma {:induction false} FormatAllOfPassing(matches: seq<string>)
    requires forall j | 0 <= j < |matches| :: FormatMatch(matches[j]).Some?
    ensures |FormatAll(matches)| == |matches|
  {
    if matches != [] {
      var init := matches[..|matches| - 1];
      var last := matches[|matches| - 1];
      assert forall j | 0 <= j < |init| :: init[j] == matches[j];
      FormatAllOfPassing(init);
      assert FormatMatch(last).Some?;
      assert FormatAll(matches) == FormatAll(init) + [FormatMatch(last).value];
    }
  }

  lemma FormatAllDropsFailing(matches: seq<string>, j: nat)
    requires j < |matches| && FormatMatch(matches[j]).None?
    ensures |FormatAll(matches)| < |matches|
  {
    var before := matches[..j];
    var after := matches[j + 1..];
    assert matches == before + ([matches[j]] + after);
    FormatAllAppend(before, [matches[j]] + after);
    FormatAllAppend([matches[j]], after);
    FormatAllOne(matches[j]);
  }



  /** The records of a message are the records of its matches taken one after the other:
      formatting distributes over concatenation, so a malformed match never affects the
      records of the others. */
  lemma {:induction false} FormatAllAppend(a: seq<string>, b: seq<string>)
    ensures FormatAll(a + b) == FormatAll(a) + FormatAll(b)
    decreases |b|
  {
    if b == [] {
      assert a + b == a;
    } else {
      var init := b[..|b| - 1];
      assert (a + b)[..|a + b| - 1] == a + init;
      assert (a + b)[|a + b| - 1] == b[|b| - 1];
      FormatAllAppend(a, init);
    }
  }

  /** A single match contributes its record when it has one, and nothing otherwise. */
  lemma FormatAllOne(matched: string)
    ensures FormatAll([matched]) == if FormatMatch(matched).Some? then [FormatMatch(matched).value] else []
  {
    assert [matched][..0] == [];
  }

  /** Every match that passes the checks has its record among the message's records, in
      the position given by the passing matches before it. */
  lemma FormatAllKeepsPassing(matches: seq<string>, j: nat)
    requires j < |matches| && FormatMatch(matches[j]).Some?
    ensures var records := FormatAll(matches);
      |FormatAll(matches[..j])| < |records| && records[|FormatAll(matches[..j])|] == FormatMatch(matches[j]).value
  {
    assert matches == matches[..j] + ([matches[j]] + matches[j + 1..]);
    FormatAllAppend(matches[..j], [matches[j]] + matches[j + 1..]);
    FormatAllAppend([matches[j]], matches[j + 1..]);
    FormatAllOne(matches[j]);
  }

  /** The digit runs of text shaped like the card pattern: four digit groups with a
      non-empty run of non-digits of any length between each two (`\D*` with an empty
      gap would merge two groups into one run). */
  lemma DigitRunsOfFourGroups(card: string, mo: string, yy: string, cvv: string, g1: string, g2: string, g3: string)
    requires card != [] && mo != [] && yy != [] && cvv != []
    requires All(card, IsDigit) && All(mo, IsDigit) && All(yy, IsDigit) && All(cvv, IsDigit)
    requires g1 != [] && g2 != [] && g3 != []
    requires NoneOf(g1, IsDigit) && NoneOf(g2, IsDigit) && NoneOf(g3, IsDigit)
    ensures DigitRuns(card + g1 + mo + g2 + yy + g3 + cvv) == [card, mo, yy, cvv]
  {
    var t2 := yy + (g3 + cvv);
    var t1 := mo + (g2 + t2);
    assert card + g1 + mo + g2 + yy + g3 + cvv == card + (g1 + t1);
    WholeRun(cvv, IsDigit);
    RunsStepGap(yy, g3, cvv, IsDigit);
    RunsStepGap(mo, g2, t2, IsDigit);
    RunsStepGap(card, g1, t1, IsDigit);
  }

  // ---------------------------------------------------------------------------
  // Worked examples.

  /** Text shaped like the card pattern whose groups pass the checks is formatted from
      those four groups, whatever non-digits stand between them. */
  lemma FormatMatchOfFourGroups(card: string, mo: string, yy: string, cvv: string, g1: string, g2: string, g3: string)
    requires card != [] && mo != [] && yy != [] && cvv != []
    requires All(card, IsDigit) && All(mo, IsDigit) && All(yy, IsDigit) && All(cvv, IsDigit)
    requires g1 != [] && g2 != [] && g3 != []
    requires NoneOf(g1, IsDigit) && NoneOf(g2, IsDigit) && NoneOf(g3, IsDigit)
    requires (|card| == 15 || |card| == 16) && 1 <= Value(mo) <= 12
    ensures FormatMatch(card + g1 + mo + g2 + yy + g3 + cvv) ==
      Some(card + "|" + mo + "|" + LastTwo(yy) + "|" + cvv)
  {
    DigitRunsOfFourGroups(card, mo, yy, cvv, g1, g2, g3);
    JoinOfFour(card, mo, LastTwo(yy), cvv, '|');
    Reassociate(card, mo, LastTwo(yy), cvv, "|");
  }

  lemma Reassociate(a: string, b: string, c: string, d: string, sep: string)
    ensures a + sep + (b + sep + (c + sep + d)) == a + sep + b + sep + c + sep + d
  {
    var r := c + sep + d;
    assert b + sep + r == (b + sep + c) + sep + d;
    assert a + sep + (b + sep + r) == a + sep + (b + sep + c + sep + d);
  }

  lemma ValidCardExample(text: string)
    requires text == "4111111111111111" + " " + "05" + "/" + "26" + " " + "123"
    ensures FormatMatch(text) == Some("4111111111111111" + "|" + "05" + "|" + "26" + "|" + "123")
  {
    var card, mo, yy, cvv := "4111111111111111", "05", "26", "123";
    assert Value(mo) == 5 by {
      assert mo[..1] == "0";
    }
    FormatMatchOfFourGroups(card, mo, yy, cvv, " ", "/", " ");
  }

  lemma FourDigitYearExample(text: string)
    requires text == "378282246310005" + " " + "12" + "/" + "2031" + " " + "1234"
    ensures FormatMatch(text) == Some("378282246310005" + "|" + "12" + "|" + "31" + "|" + "1234")
  {
    var card, mo, yy, cvv := "378282246310005", "12", "2031", "1234";
    assert Value(mo) == 12 by {
      assert mo[..1] == "1";
    }
    FormatMatchOfFourGroups(card, mo, yy, cvv, " ", "/", " ");
    assert LastTwo(yy) == "31";
  }

  /** Longer separators, as card dumps often have them, are skipped like single ones. */
  lemma LongGapExample(text: string)
    requires text == "4111111111111111" + " | " + "05" + "/" + "26" + " | cvv: " + "123"
    ensures FormatMatch(text) == Some("4111111111111111" + "|" + "05" + "|" + "26" + "|" + "123")
  {
    var card, mo, yy, cvv := "4111111111111111", "05", "26", "123";
    assert Value(mo) == 5 by {
      assert mo[..1] == "0";
    }
    FormatMatchOfFourGroups(card, mo, yy, cvv, " | ", "/", " | cvv: ");
  }

  lemma BadMonthExample(text: string)
    requires text == "4111111111111111" + " " + "13" + "/" + "26" + " " + "123"
    ensures FormatMatch(text) == None
  {
    var card, mo, yy, cvv := "4111111111111111", "13", "26", "123";
    DigitRunsOfFourGroups(card, mo, yy, cvv, " ", "/", " ");
    assert mo[..1] == "1";
    assert Value(mo) == 13;
  }
}
