/**
  The week detail page (src/pages/WeekPage.jsx): which record a route segment
  resolves to, and the previous/next links shown under it. The page's layout
  is not modelled.
*/
module WeekPage {
  import opened Wrappers
  import opened EcmaParseInt
  import opened WeekData

  /** `ws.find(w => w.id === n)`: the first record whose id is `n`. */
  function Find(ws: seq<WeekRecord>, n: int): (r: Option<WeekRecord>)
    ensures r.None? <==> forall i :: 0 <= i < |ws| ==> ws[i].id != n
    ensures r.Some? ==> exists i :: 0 <= i < |ws| && ws[i] == r.value && r.value.id == n &&
                                    forall j :: 0 <= j < i ==> ws[j].id != n
  {
    if ws == [] then None
    else if ws[0].id == n then Some(ws[0])
    else
      var r := Find(ws[1..], n);
      assert forall i :: 1 <= i < |ws| ==> ws[i] == ws[1..][i - 1];
      r
  }

  /** The record the page shows for the raw `:weekId` segment, `None` for the
      "Week Not Found" page. NaN never equals an id, so an unparsable segment
      finds nothing. */
  function Lookup(segment: string): (r: Option<WeekRecord>)
    ensures r.Some? ==> r.value in Weeks && ParseInt(segment) == Some(r.value.id)
  {
    match ParseInt(segment)
    case None => None
    case Some(n) => Find(Weeks, n)
  }

  /** The bound the page writes as a literal for the last week. */
  const LastWeek := 10

  /** `week.id > 0 ? week.id - 1 : null` */
  function PrevWeek(id: int): Option<int> {
    if id > 0 then Some(id - 1) else None
  }

  /** `week.id < 10 ? week.id + 1 : null` */
  function NextWeek(id: int): Option<int> {
    if id < LastWeek then Some(id + 1) else None
  }

  /** The path prefix of every week link. */
  const WeekRoute := "/week/"

  /** `/week/${id}`: the link target built by the home grid, the navigation
      bar and the previous/next links. */
  function WeekLink(id: nat): string {
    WeekRoute + DecimalString(id)
  }

  // ---------------------------------------------------------------------------
  // Lookup

  /** When ids are distinct, `find` by a record's id returns that record. */
  lemma FindDistinct(ws: seq<WeekRecord>, i: int)
    requires DistinctIds(ws)
    requires 0 <= i < |ws|
    ensures Find(ws, ws[i].id) == Some(ws[i])
  {
    var k :| 0 <= k < |ws| && ws[k] == Find(ws, ws[i].id).value && ws[k].id == ws[i].id &&
             forall j :: 0 <= j < k ==> ws[j].id != ws[i].id;
    assert k == i;
  }

  /** In a table whose ids are positions, `find` by `n` is indexing by `n`. */
  lemma FindPositional(ws: seq<WeekRecord>, n: int)
    requires IdsArePositions(ws)
    ensures Find(ws, n) == if 0 <= n < |ws| then Some(ws[n]) else None
  {
    if 0 <= n < |ws| {
      PositionalIdsAreDistinct(ws);
      FindDistinct(ws, n);
    }
  }

  /** A segment resolves exactly when it parses to an id of the table, and
      then to the record with that id; every other segment shows the
      not-found page. */
  lemma LookupResolves(segment: string)
    ensures Lookup(segment).Some? <==> ParseInt(segment).Some? && 0 <= ParseInt(segment).value <= LastWeek
    ensures Lookup(segment).Some? ==> Lookup(segment).value == Weeks[ParseInt(segment).value]
    ensures Lookup(segment).Some? ==> Lookup(segment).value.id == ParseInt(segment).value
  {
    WeeksIdsArePositions();
    if ParseInt(segment).Some? {
      FindPositional(Weeks, ParseInt(segment).value);
    }
  }

  /** The decimal text of every id in the table resolves to that id's week. */
  lemma LookupOfId(n: nat)
    requires n < |Weeks|
    ensures Lookup(DecimalString(n)) == Some(Weeks[n])
  {
    ParseIntRoundTrip(n);
    LookupResolves(DecimalString(n));
  }

  /** The segment of every link `/week/${week.id}` resolves to that week. */
  lemma WeekLinkResolves(i: int)
    requires 0 <= i < |Weeks|
    ensures Weeks[i].id >= 0
    ensures WeekLink(Weeks[i].id)[..|WeekRoute|] == WeekRoute
    ensures Lookup(WeekLink(Weeks[i].id)[|WeekRoute|..]) == Some(Weeks[i])
  {
    WeeksIdsArePositions();
    WeekLinkSegment(i);
    LookupOfId(i);
  }

  /** A week link is the route prefix followed by the id's decimal text. */
  lemma WeekLinkSegment(id: nat)
    ensures WeekLink(id)[..|WeekRoute|] == WeekRoute
    ensures WeekLink(id)[|WeekRoute|..] == DecimalString(id)
  {
    var link := WeekLink(id);
    assert link == WeekRoute + DecimalString(id);
  }

  /** parseInt stops at the first character that is not a digit, so text after
      a week's number does not change the week ("3abc", "3.5"). */
  lemma LookupIgnoresTrailingText(n: nat, tail: string)
    requires tail == [] || !IsRadixDigit(tail[0], 10)
    requires n == 0 && tail != [] ==> tail[0] != 'x' && tail[0] != 'X'
    ensures Lookup(DecimalString(n) + tail) == Lookup(DecimalString(n))
  {
    ParseIntDecimalString(n, tail);
    ParseIntRoundTrip(n);
  }

  /** Leading white space does not change the week ("  3"). */
  lemma LookupIgnoresLeadingWhitespace(w: string, segment: string)
    requires forall i :: 0 <= i < |w| ==> IsJsWhitespace(w[i])
    ensures Lookup(w + segment) == Lookup(segment)
  {
    ParseIntSkipsWhitespace(w, segment);
  }

  /** A minus sign in front of a positive number leaves the table ("-1");
      "-0" is 0 under `===` and finds week 0. */
  lemma LookupNegative(n: nat)
    ensures Lookup("-" + DecimalString(n)) == if n == 0 then Some(Weeks[0]) else None
  {
    ParseIntSignedDecimalString("-", n, "");
    assert DecimalString(n) + "" == DecimalString(n);
    LookupResolves("-" + DecimalString(n));
  }

  // ---------------------------------------------------------------------------
  // Previous and next links

  /** On the shipped table, the previous link is the week before and the next
      link the week after, present exactly when such a week exists: the
      literal bound equals the table's last id. */
  lemma AdjacentWeeks(i: int)
    requires 0 <= i < |Weeks|
    ensures PrevWeek(Weeks[i].id) == if i > 0 then Some(i - 1) else None
    ensures NextWeek(Weeks[i].id) == if i < |Weeks| - 1 then Some(i + 1) else None
  {
    WeeksIdsArePositions();
  }

  /** No previous link dangles: when present it resolves, through its own
      `/week/${id}` segment, to the record before. */
  lemma PrevLinkResolves(i: int)
    requires 0 <= i < |Weeks|
    ensures PrevWeek(Weeks[i].id).Some? ==>
              PrevWeek(Weeks[i].id).value >= 0 &&
              Lookup(DecimalString(PrevWeek(Weeks[i].id).value)) == Some(Weeks[i - 1])
  {
    AdjacentWeeks(i);
    if i > 0 {
      LinkTarget(PrevWeek(Weeks[i].id), i - 1);
    }
  }

  /** No next link dangles: when present it resolves, through its own
      `/week/${id}` segment, to the record after. */
  lemma NextLinkResolves(i: int)
    requires 0 <= i < |Weeks|
    ensures NextWeek(Weeks[i].id).Some? ==>
              NextWeek(Weeks[i].id).value >= 0 &&
              Lookup(DecimalString(NextWeek(Weeks[i].id).value)) == Some(Weeks[i + 1])
  {
    AdjacentWeeks(i);
    if i < |Weeks| - 1 {
      LinkTarget(NextWeek(Weeks[i].id), i + 1);
    }
  }

  lemma LinkTarget(link: Option<int>, k: nat)
    requires link == Some(k) && k < |Weeks|
    ensures link.value >= 0 && Lookup(DecimalString(link.value)) == Some(Weeks[k])
  {
    LookupOfId(k);
  }

  /** Every `next` link of a table resolves to a record. */
  ghost predicate NextLinksResolve(ws: seq<WeekRecord>) {
    forall i :: 0 <= i < |ws| && NextWeek(ws[i].id).Some? ==> Find(ws, NextWeek(ws[i].id).value).Some?
  }

  /** Every record but the last has a `next` link. */
  ghost predicate NextLinksReachAll(ws: seq<WeekRecord>) {
    forall i :: 0 <= i < |ws| - 1 ==> NextWeek(ws[i].id).Some?
  }

  /** For a table with ids 0, 1, 2, … the literal bound leaves no dangling
      link only if the table has at least eleven records, and reaches every
      record only if it has at most eleven: it is right for eleven records
      and for no other size. */
  lemma LiteralBoundFitsElevenRecords(ws: seq<WeekRecord>)
    requires ws != [] && IdsArePositions(ws)
    ensures NextLinksResolve(ws) <==> |ws| >= LastWeek + 1
    ensures NextLinksReachAll(ws) <==> |ws| <= LastWeek + 1
  {
    forall k | true
      ensures Find(ws, k).Some? <==> 0 <= k < |ws|
    {
      FindPositional(ws, k);
    }
    var last := |ws| - 1;
    if |ws| < LastWeek + 1 {
      assert NextWeek(ws[last].id) == Some(|ws|);
      assert !NextLinksResolve(ws);
    }
    if |ws| > LastWeek + 1 {
      assert NextWeek(ws[LastWeek].id).None?;
      assert !NextLinksReachAll(ws);
    }
  }

  /** The next link with its bound taken from the table instead of written
      as a literal, so that it follows the course length when that changes. */
  function NextWeekIn(ws: seq<WeekRecord>, id: int): Option<int>
    requires ws != []
  {
    if id < MaxId(ws) then Some(id + 1) else None
  }

  /** With the bound taken from the table, every table with ids 0, 1, 2, …
      gets exactly the links it needs, whatever its size. */
  lemma DerivedBoundFitsAnyTable(ws: seq<WeekRecord>, i: int)
    requires ws != [] && IdsArePositions(ws)
    requires 0 <= i < |ws|
    ensures NextWeekIn(ws, ws[i].id).Some? <==> i < |ws| - 1
    ensures NextWeekIn(ws, ws[i].id).Some? ==> Find(ws, NextWeekIn(ws, ws[i].id).value) == Some(ws[i + 1])
  {
    MaxIdOfPositional(ws);
    if i < |ws| - 1 {
      FindPositional(ws, i + 1);
    }
  }

  /** On the shipped table the literal bound and the derived one agree. */
  lemma DerivedBoundAgrees(id: int)
    ensures NextWeekIn(Weeks, id) == NextWeek(id)
  {
    WeeksMaxId();
  }

  // ---------------------------------------------------------------------------
  // Examples: one segment per lemma keeps each computation on a literal small.

  lemma LookupPlainNumber()
    ensures Lookup("3") == Some(Weeks[3])
  {
    ParseIntRoundTrip(3);
    assert DecimalString(3) == "3";
    LookupResolves("3");
  }

  lemma LookupTrailingLetters()
    ensures Lookup("3abc") == Some(Weeks[3])
  {
    ParseIntTrailingLetters();
    LookupResolves("3abc");
  }

  lemma LookupTrailingFraction()
    ensures Lookup("3.5") == Some(Weeks[3])
  {
    ParseIntTrailingFraction();
    LookupResolves("3.5");
  }

  lemma LookupPlusSign()
    ensures Lookup("+7") == Some(Weeks[7])
  {
    ParseIntPlusSign();
    LookupResolves("+7");
  }

  lemma LookupHexadecimal()
    ensures Lookup("0xA") == Some(Weeks[10])
  {
    ParseIntHexadecimal();
    LookupResolves("0xA");
  }

  lemma LookupMinusZero()
    ensures Lookup("-0") == Some(Weeks[0])
  {
    ParseIntMinusZero();
    LookupResolves("-0");
  }

  lemma LookupLastWeek()
    ensures Lookup("10") == Some(Weeks[10])
  {
    ParseIntRoundTrip(10);
    assert DecimalString(10) == "10";
    LookupResolves("10");
  }

  lemma LookupPastLastWeek()
    ensures Lookup("11") == None
  {
    ParseIntRoundTrip(11);
    assert DecimalString(11) == "11";
    LookupResolves("11");
  }

  lemma LookupFarPastLastWeek()
    ensures Lookup("999") == None
  {
    ParseIntRoundTrip(999);
    assert DecimalString(999) == "999";
    LookupResolves("999");
  }

  lemma LookupMinusOne()
    ensures Lookup("-1") == None
  {
    ParseIntMinusOne();
    LookupResolves("-1");
  }

  lemma LookupWord()
    ensures Lookup("banana") == None
  {
    ParseIntWord();
    LookupResolves("banana");
  }

  lemma LookupBareHexPrefix()
    ensures Lookup("0x") == None
  {
    ParseIntBareHexPrefix();
    LookupResolves("0x");
  }

  /** Week 3 links to weeks 2 and 4, week 10 to week 9 only, week 0 to week 1 only. */
  lemma NavigationExamples()
    ensures PrevWeek(Weeks[3].id) == Some(2) && NextWeek(Weeks[3].id) == Some(4)
    ensures PrevWeek(Weeks[10].id) == Some(9) && NextWeek(Weeks[10].id) == None
    ensures PrevWeek(Weeks[0].id) == None && NextWeek(Weeks[0].id) == Some(1)
  {
    AdjacentWeeks(0);
    AdjacentWeeks(3);
    AdjacentWeeks(10);
  }
}
