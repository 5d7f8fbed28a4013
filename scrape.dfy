/**
 The scraper's row filter: from the (name, vote text) pairs read off the
 leaderboard, drop blacklisted names, strip thousands separators from the
 vote text, keep the rows whose text is an integer, and report the four with
 the most votes.

 Python's `int()` is taken to accept an optional sign followed by one or more
 ASCII digits, and `str.upper()` to change only the ASCII letters a-z.
 */
module Scrape {
  import opened Ranking
  import opened Optional

  /** One leaderboard item as read from the page. */
  datatype Row = Row(name: string, voteText: string)

  /** Names that are never reported, compared after upper-casing. */
  const Blacklist: seq<string> := ["BYEON WOO SEOK", "KIM SEON HO", "NAM JOO HYUK"]

  // ---------------------------------------------------------------------------
  // Upper-casing and the blacklist
  // ---------------------------------------------------------------------------

  function UpperChar(c: char): char {
    if 'a' <= c <= 'z' then (c as int - 'a' as int + 'A' as int) as char else c
  }

  function ToUpper(s: string): (r: string)
    ensures |r| == |s|
    ensures forall i :: 0 <= i < |s| ==> r[i] == UpperChar(s[i])
  {
    seq(|s|, i requires 0 <= i < |s| => UpperChar(s[i]))
  }

  /** A name is blacklisted when its upper-cased form is on the list, whatever its case. */
  predicate Blacklisted(name: string) {
    ToUpper(name) in Blacklist
  }

  function LowerChar(c: char): char {
    if 'A' <= c <= 'Z' then (c as int - 'A' as int + 'a' as int) as char else c
  }

  /** No lower-case ASCII letter occurs in `s`. */
  predicate NoLowerCase(s: string) {
    forall i :: 0 <= i < |s| ==> !('a' <= s[i] <= 'z')
  }

  /** `a` is `n` with any of n's capital letters possibly written in lower case. */
  predicate SpellsIgnoringCase(a: string, n: string) {
    |a| == |n| && forall i :: 0 <= i < |a| ==> a[i] == n[i] || ('A' <= n[i] <= 'Z' && a[i] == LowerChar(n[i]))
  }

  lemma BlacklistHasNoLowerCase()
    ensures forall n :: n in Blacklist ==> NoLowerCase(n)
  {
  }

  /**
   Blacklisting ignores letter case and nothing else: a name is blacklisted
   exactly when it spells a listed name, each capital letter written in
   either case.
   */
  lemma BlacklistedIffSpelled(a: string)
    ensures Blacklisted(a) <==> exists n :: n in Blacklist && SpellsIgnoringCase(a, n)
  {
    if Blacklisted(a) {
      SpellsItsUpperCase(a);
    }
    if exists n :: n in Blacklist && SpellsIgnoringCase(a, n) {
      var n :| n in Blacklist && SpellsIgnoringCase(a, n);
      BlacklistHasNoLowerCase();
      UpperCaseOfSpelling(a, n);
    }
  }

  lemma SpellsItsUpperCase(a: string)
    ensures SpellsIgnoringCase(a, ToUpper(a))
  {
  }

  lemma UpperCaseOfSpelling(a: string, n: string)
    requires NoLowerCase(n) && SpellsIgnoringCase(a, n)
    ensures ToUpper(a) == n
  {
  }

  lemma LowerCaseNameIsBlacklisted()
    ensures Blacklisted("Kim Seon Ho")
  {
    assert ToUpper("Kim Seon Ho") == "KIM SEON HO";
  }

  // ---------------------------------------------------------------------------
  // Cleaning the vote text
  // ---------------------------------------------------------------------------

  /** The text with every occurrence of the character `c` deleted. */
  function RemoveChar(s: string, c: char): string {
    if s == [] then []
    else RemoveChar(s[..|s| - 1], c) + (if s[|s| - 1] == c then [] else [s[|s| - 1]])
  }

  /** The vote text with its commas deleted, and then its full stops. */
  function CleanVoteText(text: string): string {
    RemoveChar(RemoveChar(text, ','), '.')
  }

  /** Reference definition: the characters of `s` other than ',' and '.', in order. */
  function KeepNonSeparators(s: string): string {
    if s == [] then []
    else (if s[0] == ',' || s[0] == '.' then [] else [s[0]]) + KeepNonSeparators(s[1..])
  }

  lemma {:induction false} KeepNonSeparatorsConcat(a: string, b: string)
    ensures KeepNonSeparators(a + b) == KeepNonSeparators(a) + KeepNonSeparators(b)
  {
    if a == [] {
      assert a + b == b;
    } else {
      assert (a + b)[1..] == a[1..] + b;
      KeepNonSeparatorsConcat(a[1..], b);
    }
  }

  lemma {:induction false} RemoveCharContents(s: string, c: char)
    ensures forall x :: x in RemoveChar(s, c) <==> x in s && x != c
  {
    if s != [] {
      RemoveCharContents(s[..|s| - 1], c);
      assert s == s[..|s| - 1] + [s[|s| - 1]];
    }
  }

  lemma {:induction false} RemoveCharConcat(a: string, b: string, c: char)
    ensures RemoveChar(a + b, c) == RemoveChar(a, c) + RemoveChar(b, c)
    decreases |b|
  {
    if b == [] {
      assert a + b == a;
    } else {
      var n := |b| - 1;
      assert (a + b)[..|a + b| - 1] == a + b[..n];
      RemoveCharConcat(a, b[..n], c);
    }
  }

  /**
   The two-pass cleaning removes exactly the commas and full stops and keeps
   every other character in order.
   */
  lemma CleanVoteTextRemovesSeparators(text: string)
    ensures CleanVoteText(text) == KeepNonSeparators(text)
    ensures ',' !in CleanVoteText(text) && '.' !in CleanVoteText(text)
  {
    CleanVoteTextKeepsOthers(text);
    RemoveCharContents(RemoveChar(text, ','), '.');
    RemoveCharContents(text, ',');
  }

  lemma {:induction false} CleanVoteTextKeepsOthers(text: string)
    ensures CleanVoteText(text) == KeepNonSeparators(text)
  {
    if text != [] {
      var n := |text| - 1;
      var last := text[n];
      CleanVoteTextKeepsOthers(text[..n]);
      var once := RemoveChar(text, ',');
      assert once == RemoveChar(text[..n], ',') + (if last == ',' then [] else [last]);
      RemoveCharConcat(RemoveChar(text[..n], ','), if last == ',' then [] else [last], '.');
      assert RemoveChar(if last == ',' then [] else [last], '.')
        == (if last == ',' || last == '.' then [] else [last]) by {
        if last != ',' {
          assert [last][..0] == [];
        }
      }
      assert text == text[..n] + [last];
      KeepNonSeparatorsConcat(text[..n], [last]);
      assert KeepNonSeparators([last]) == (if last == ',' || last == '.' then [] else [last]) + KeepNonSeparators([]);
    }
  }

  // ---------------------------------------------------------------------------
  // int()
  // ---------------------------------------------------------------------------

  predicate IsDigit(c: char) {
    '0' <= c <= '9'
  }

  predicate AllDigits(s: string) {
    forall i :: 0 <= i < |s| ==> IsDigit(s[i])
  }

  /** The value of a string of decimal digits, most significant first. */
  function DigitsValue(s: string): nat
    requires AllDigits(s)
  {
    if s == [] then 0
    else 10 * DigitsValue(s[..|s| - 1]) + (s[|s| - 1] as int - '0' as int)
  }

  /**
   The integer the text spells as an optional sign and at least one digit, or
   nothing when Python's integer conversion would raise.
   */
  function ParseInt(s: string): Option<int> {
    if |s| > 0 && (s[0] == '+' || s[0] == '-') then
      var digits := s[1..];
      if |digits| > 0 && AllDigits(digits) then
        var v: int := DigitsValue(digits);
        Some(if s[0] == '-' then -v else v)
      else None
    else if |s| > 0 && AllDigits(s) then Some(DigitsValue(s))
    else None
  }

  /** Decimal digits of `n` without leading zeros. */
  function NatDigits(n: nat): (r: string)
    ensures |r| > 0 && AllDigits(r)
  {
    var d := [(n % 10 + '0' as int) as char];
    if n < 10 then d else NatDigits(n / 10) + d
  }

  /** The decimal form of an integer, with a minus sign when negative. */
  function FormatInt(n: int): string {
    if n < 0 then "-" + NatDigits(-n) else NatDigits(n)
  }

  lemma {:induction false} NatDigitsValue(n: nat)
    ensures DigitsValue(NatDigits(n)) == n
  {
    var d := [(n % 10 + '0' as int) as char];
    if n >= 10 {
      NatDigitsValue(n / 10);
      var r := NatDigits(n / 10) + d;
      assert r[..|r| - 1] == NatDigits(n / 10);
    }
  }

  /** Parsing undoes printing: every integer's decimal form parses back to it. */
  lemma ParseFormatRoundTrip(n: int)
    ensures ParseInt(FormatInt(n)) == Some(n)
  {
    if n < 0 {
      NatDigitsValue(-n);
      assert FormatInt(n)[1..] == NatDigits(-n);
    } else {
      NatDigitsValue(n);
    }
  }

  /** Text that is empty, a bare sign or holds a non-digit after the first character does not parse. */
  lemma ParseIntRejects(s: string)
    requires s == [] || s == "+" || s == "-"
      || (exists i :: 1 <= i < |s| && !IsDigit(s[i]))
      || (|s| > 0 && !IsDigit(s[0]) && s[0] != '+' && s[0] != '-')
    ensures ParseInt(s) == None
  {
  }

  /** Thousands separators are ignored: "1,234" counts as 1234 votes. */
  lemma SeparatedCountExample()
    ensures ParseInt(CleanVoteText("1,234")) == Some(1234)
  {
    CleanVoteTextRemovesSeparators("1,234");
    KeepNonSeparatorsExample();
    DigitsValueExample();
  }

  lemma KeepNonSeparatorsExample()
    ensures KeepNonSeparators("1,234") == "1234"
  {
  }

  lemma DigitsValueExample()
    ensures AllDigits("1234") && DigitsValue("1234") == 1234
  {
    assert "1234"[..3] == "123" && "123"[..2] == "12";
    assert "12"[..1] == "1" && "1"[..0] == "";
  }

  // ---------------------------------------------------------------------------
  // The row filter
  // ---------------------------------------------------------------------------

  /** What one row contributes: its entry, or nothing when it is blacklisted or unparsable. */
  function RowEntry(row: Row): Option<Entry> {
    if Blacklisted(row.name) then None
    else match ParseInt(CleanVoteText(row.voteText))
      case None => None
      case Some(v) => Some(Entry(row.name, v))
  }

  /** The accepted rows, one entry each, in scrape order. */
  function Accepted(rows: seq<Row>): seq<Entry> {
    if rows == [] then []
    else
      Accepted(rows[..|rows| - 1])
        + match RowEntry(rows[|rows| - 1]) case None => [] case Some(e) => [e]
  }

  /** Accepting is done row by row: a list of rows contributes its parts' entries in order. */
  lemma {:induction false} AcceptedConcat(a: seq<Row>, b: seq<Row>)
    ensures Accepted(a + b) == Accepted(a) + Accepted(b)
    decreases |b|
  {
    if b == [] {
      assert a + b == a;
    } else {
      var n := |b| - 1;
      assert (a + b)[..|a + b| - 1] == a + b[..n];
      AcceptedConcat(a, b[..n]);
    }
  }

  /** `e` is what row `i` of `rows` contributes: its name, and its cleaned text parses to e's count. */
  predicate FromRow(e: Entry, rows: seq<Row>, i: int) {
    0 <= i < |rows| && rows[i].name == e.name && ParseInt(CleanVoteText(rows[i].voteText)) == Some(e.votes)
  }

  /** No accepted entry carries a blacklisted name. */
  lemma {:induction false} AcceptedNotBlacklisted(rows: seq<Row>)
    ensures forall e :: e in Accepted(rows) ==> !Blacklisted(e.name)
  {
    if rows != [] {
      AcceptedNotBlacklisted(rows[..|rows| - 1]);
    }
  }

  /** Every accepted entry comes from a row whose cleaned vote text parses to the entry's count. */
  lemma {:induction false} AcceptedFromRows(rows: seq<Row>)
    ensures forall e :: e in Accepted(rows) ==> exists i :: FromRow(e, rows, i)
  {
    if rows != [] {
      var n := |rows| - 1;
      AcceptedFromRows(rows[..n]);
      forall e | e in Accepted(rows) ensures exists i :: FromRow(e, rows, i) {
        if e in Accepted(rows[..n]) {
          var i :| FromRow(e, rows[..n], i);
          assert rows[i] == rows[..n][i];
          assert FromRow(e, rows, i);
        } else {
          assert FromRow(e, rows, n);
        }
      }
    }
  }

  /** Every row that is not blacklisted and whose cleaned vote text parses yields its entry. */
  lemma {:induction false} AcceptedKeepsValidRows(rows: seq<Row>)
    ensures forall i :: 0 <= i < |rows| && RowEntry(rows[i]).Some? ==> RowEntry(rows[i]).value in Accepted(rows)
  {
    if rows != [] {
      var n := |rows| - 1;
      AcceptedKeepsValidRows(rows[..n]);
      forall i | 0 <= i < |rows| && RowEntry(rows[i]).Some? ensures RowEntry(rows[i]).value in Accepted(rows) {
        if i < n {
          assert rows[..n][i] == rows[i];
        }
      }
    }
  }

  /** The scraper's selection of the top four, once the page's items have been read as rows. */
  method ScrapeTop4Female(rows: seq<Row>) returns (top4: seq<Entry>)
    ensures top4 == Top(Accepted(rows), 4)
    ensures |top4| == if |Accepted(rows)| < 4 then |Accepted(rows)| else 4
    ensures NonIncreasing(top4)
    ensures forall e :: e in top4 ==> !Blacklisted(e.name)
    ensures forall e :: e in top4 ==> exists i :: FromRow(e, rows, i)
    ensures forall x, y :: x in multiset(Accepted(rows)) - multiset(top4) && y in top4 ==> x.votes <= y.votes
    ensures forall v :: WithVotes(top4, v) <= WithVotes(Accepted(rows), v)
    ensures top4 <= SortByVotesDesc(Accepted(rows))
  {
    var results: seq<Entry> := [];
    for i := 0 to |rows|
      invariant results == Accepted(rows[..i])
    {
      assert rows[..i + 1][..i] == rows[..i];
      var name := rows[i].name;
      var votes := CleanVoteText(rows[i].voteText);
      if ToUpper(name) in Blacklist {
        continue;
      }
      var parsed := ParseInt(votes);
      if parsed.None? {
        continue;
      }
      results := results + [Entry(name, parsed.value)];
    }
    assert rows[..|rows|] == rows;
    top4 := Top(results, 4);
    TopSelects(results, 4);
    AcceptedNotBlacklisted(rows);
    AcceptedFromRows(rows);
    forall e | e in top4 ensures e in results {
      assert e in multiset(top4);
    }
  }
}
