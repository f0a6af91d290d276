# Week lookup and week-to-week navigation of the p5.js portfolio

The portfolio is a single-page site with one page per week of a creative
coding course. Its content is one table of week records (`weeks` in
`src/data/weeks.js`). The week page (`src/pages/WeekPage.jsx`) receives the
`:weekId` segment of the route `/week/:weekId` as text. It converts that text
with JavaScript's `parseInt`, picks the first record whose `id` is strictly
equal to the result, and shows "Week Not Found" when there is none. Under a
found week it links to the previous week (when `id > 0`) and to the next week
(when `id < 10`, a bound written as a literal).

The model has four modules:

- `Wrappers`: the `Option` type, standing for `undefined`, `null` and `NaN`.
- `EcmaParseInt`: `parseInt(s)` with no radix argument, as section 19.2.5 of
  ECMA-262 defines it. It skips leading white space and line terminators,
  reads an optional sign and an optional `0x`/`0X` prefix, then takes the
  longest run of digits; with no digit the result is NaN (`None`). The module
  also defines `DecimalString`, the text that `${n}` produces for a
  non-negative integer, which is how every week link is built.
- `WeekData`: the table itself, eleven records with ids 0 to 10, and the
  facts proved about it.
- `WeekPage`: `find`, the lookup of a segment, the previous and next links,
  the links built as `/week/${id}`, and the properties relating them.

The central results:

- `parseInt` is characterised in both directions by a grammar of readings
  (`Numeral`).
- A segment shows a week exactly when it parses to an integer from 0 to 10,
  and that week is the record at that position.
- Every link that the home grid, the navigation bar and the previous/next
  links build resolves back to the week it names.
- The literal bound 10 is correct for a table of exactly eleven records with
  ids 0, 1, 2, … and for no other non-empty size. On the shipped table it agrees with
  a bound derived from the table, and the derived bound is correct for every
  size.

## Model

| member | source | states |
|---|---|---|
| EcmaParseInt.ParseInt | src/pages/WeekPage.jsx:34 | No contract of its own: `parseInt(weekId)` with no radix, as the composition of white-space trimming with ParseSigned; characterised in both directions by ParseIntSomeIff and ParseIntNoneIff |
| EcmaParseInt.ParseSigned | src/pages/WeekPage.jsx:34 | No contract of its own: the optional sign of parseInt; characterised by ParseIntOfNumeral and ParseIntSignedDecimalString |
| EcmaParseInt.ParseUnsigned | src/pages/WeekPage.jsx:34 | No contract of its own: the optional `0x`/`0X` prefix choosing radix 16; characterised by ParseIntOfNumeral, ParseIntHexadecimal and ParseIntBareHexPrefix |
| EcmaParseInt.ParseRadix | src/pages/WeekPage.jsx:34 | No contract of its own: the value of the longest digit prefix, NaN when it is empty; characterised by ParseRadixSomeIff and ParseIntOfNumeral |
| EcmaParseInt.ParseRadixSomeIff | src/pages/WeekPage.jsx:34 | The digits give a number exactly when the text starts with a digit of the radix |
| EcmaParseInt.Value | src/pages/WeekPage.jsx:34 | No contract of its own: the positional value of a digit string; characterised by ValueOfDecimalString |
| EcmaParseInt.TrimStart | src/pages/WeekPage.jsx:34 | What is left after leading white space is a suffix of the input, everything dropped is white space, and what is left does not start with white space |
| EcmaParseInt.DigitPrefix | src/pages/WeekPage.jsx:34 | The digits read are a prefix of the text, all digits of the radix, and the longest such prefix |
| EcmaParseInt.ParseIntOfNumeral | src/pages/WeekPage.jsx:34 | Every well-formed reading of a string (white space, sign, optional hex prefix, digits, non-digit rest) parses to the integer it denotes |
| EcmaParseInt.ParseIntHasNumeral | src/pages/WeekPage.jsx:34 | Every successful parse comes from a well-formed reading of the input that denotes the result |
| EcmaParseInt.ParseIntSomeIff | src/pages/WeekPage.jsx:34 | parseInt yields n exactly when the input has a well-formed reading denoting n |
| EcmaParseInt.ParseIntNoneIff | src/pages/WeekPage.jsx:34 | parseInt yields NaN exactly when the input has no well-formed reading |
| EcmaParseInt.ParseIntSkipsWhitespace | src/pages/WeekPage.jsx:34 | Prefixing white space never changes the result |
| EcmaParseInt.DecimalString | src/pages/Home.jsx:60 | The rendered id is a non-empty digit string with no leading zero, and "0" for 0 |
| EcmaParseInt.ValueOfDecimalString | src/pages/Home.jsx:60 | The digits rendered for n have the value n |
| EcmaParseInt.ParseIntRoundTrip | src/pages/Home.jsx:60 | parseInt reads back the decimal text of every non-negative integer |
| EcmaParseInt.ParseIntDecimalString | src/pages/WeekPage.jsx:34 | The decimal text of n followed by text that does not continue the number parses to n |
| EcmaParseInt.ParseIntSignedDecimalString | src/pages/WeekPage.jsx:34 | A minus sign before the decimal text of n gives -n, a plus sign gives n |
| EcmaParseInt.ParseIntTrailingLetters | src/pages/WeekPage.jsx:34 | "3abc" parses to 3 |
| EcmaParseInt.ParseIntTrailingFraction | src/pages/WeekPage.jsx:34 | "3.5" parses to 3 |
| EcmaParseInt.ParseIntPlusSign | src/pages/WeekPage.jsx:34 | "+7" parses to 7 |
| EcmaParseInt.ParseIntHexadecimal | src/pages/WeekPage.jsx:34 | "0xA" parses to 10 |
| EcmaParseInt.ParseIntMinusZero | src/pages/WeekPage.jsx:34 | "-0" parses to 0 |
| EcmaParseInt.ParseIntMinusOne | src/pages/WeekPage.jsx:34 | "-1" parses to -1 |
| EcmaParseInt.ParseIntBareHexPrefix | src/pages/WeekPage.jsx:34 | "0x" is NaN, not 0 |
| EcmaParseInt.ParseIntWord | src/pages/WeekPage.jsx:38-40 | "banana" is NaN |
| WeekData.Weeks | src/data/weeks.js:10-343 | The constant table itself; its properties are stated by WeeksIdsArePositions, WeeksIdsAreDistinct, WeeksMaxId, WeeksLearnings and WeeksGifPaths |
| WeekData.WeekRecord | src/data/weeks.js:11-29 | One week's record with the fields the source gives it (id, title, topics, description, gifPath, sketchUrl, learnings, challenges, codeSnippet); no contract of its own |
| WeekData.MaxId | src/data/weeks.js:10-343 | The result is the id of some record and no record has a larger id |
| WeekData.PositionalIdsAreDistinct | src/data/weeks.js:10-343 | A table whose ids are their positions has distinct ids |
| WeekData.MaxIdOfPositional | src/data/weeks.js:10-343 | In such a table the largest id is the last position |
| WeekData.WeeksIdsArePositions | src/data/weeks.js:10-343 | The shipped table has eleven records and each record's id is its position, 0 to 10 |
| WeekData.WeeksIdsAreDistinct | src/data/weeks.js:10-343 | No two records of the shipped table share an id |
| WeekData.WeeksMaxId | src/data/weeks.js:10-343 | The largest id of the shipped table is 10 |
| WeekData.WeeksLearnings | src/data/weeks.js:10-343 | Every week lists exactly three learnings |
| WeekData.WeeksGifPaths | src/data/weeks.js:6-7 | Every GIF path names a .gif in the gifs folder; exactly weeks 3 to 10 use the rooted "/gifs/" form the header asks for |
| WeekPage.Lookup | src/pages/WeekPage.jsx:34-41 | A shown record is in the table and its id is the parsed segment; characterised exactly by LookupResolves |
| WeekPage.PrevWeek | src/pages/WeekPage.jsx:64 | No contract of its own: the previous id, present when the id is positive; characterised by AdjacentWeeks and PrevLinkResolves |
| WeekPage.NextWeek | src/pages/WeekPage.jsx:65 | No contract of its own: the next id, present below the literal bound 10; characterised by AdjacentWeeks, NextLinkResolves and LiteralBoundFitsElevenRecords |
| WeekPage.WeekLink | src/pages/Home.jsx:60 | No contract of its own: the link `/week/${id}` the home grid, the navigation bar (Navbar.jsx:47) and the previous/next links (WeekPage.jsx:174, 183) build; characterised by WeekLinkSegment and WeekLinkResolves |
| WeekPage.NextWeekIn | src/pages/WeekPage.jsx:65 | No contract of its own: the next id with the bound taken from the table's largest id; characterised by DerivedBoundFitsAnyTable and DerivedBoundAgrees |
| WeekPage.Find | src/pages/WeekPage.jsx:34 | Nothing is found exactly when no record has the id; otherwise the result is a record with that id and no earlier record has it |
| WeekPage.FindDistinct | src/pages/WeekPage.jsx:34 | With distinct ids, finding a record's id returns that record |
| WeekPage.FindPositional | src/pages/WeekPage.jsx:34 | In a table whose ids are positions, finding n is indexing at n when n is a position and nothing otherwise |
| WeekPage.LookupResolves | src/pages/WeekPage.jsx:34-54 | A segment shows a week exactly when it parses to an integer from 0 to 10, and then the week at that position, whose id is the parsed integer; every other segment shows the not-found page |
| WeekPage.LookupOfId | src/components/Navbar.jsx:47 | The decimal text of each id of the table resolves to the week with that id |
| WeekPage.WeekLinkResolves | src/pages/Home.jsx:60 | The link `/week/${id}` of every record starts with the route prefix, and the segment after it resolves to that record |
| WeekPage.WeekLinkSegment | src/components/Navbar.jsx:47 | A week link is the route prefix `/week/` followed by the decimal text of the id |
| WeekPage.LookupIgnoresTrailingText | src/pages/WeekPage.jsx:34 | Text after the number that does not continue it does not change the week shown |
| WeekPage.LookupIgnoresLeadingWhitespace | src/pages/WeekPage.jsx:34 | Leading white space does not change the week shown |
| WeekPage.LookupNegative | src/pages/WeekPage.jsx:34-54 | "-0" shows week 0 and "-n" for n > 0 shows the not-found page |
| WeekPage.AdjacentWeeks | src/pages/WeekPage.jsx:64-65 | On the shipped table the previous link exists exactly for records after the first and names the position before; the next link exists exactly for records before the last and names the position after |
| WeekPage.PrevLinkResolves | src/pages/WeekPage.jsx:173-179 | A present previous link is a non-negative id whose link resolves to the record before |
| WeekPage.NextLinkResolves | src/pages/WeekPage.jsx:182-188 | A present next link is a non-negative id whose link resolves to the record after |
| WeekPage.LiteralBoundFitsElevenRecords | src/pages/WeekPage.jsx:65 | For a table with ids 0, 1, 2, …, every next link resolves exactly when it has at least eleven records, and every record but the last has a next link exactly when it has at most eleven |
| WeekPage.DerivedBoundFitsAnyTable | src/pages/WeekPage.jsx:58-65 | With the bound taken from the table's largest id, a record has a next link exactly when it is not the last, and the link finds the following record |
| WeekPage.DerivedBoundAgrees | src/pages/WeekPage.jsx:65 | On the shipped table the derived bound gives the same next link as the literal for every id |
| WeekPage.LookupPlainNumber | src/pages/WeekPage.jsx:34 | "3" shows week 3 |
| WeekPage.LookupTrailingLetters | src/pages/WeekPage.jsx:34 | "3abc" shows week 3 |
| WeekPage.LookupTrailingFraction | src/pages/WeekPage.jsx:34 | "3.5" shows week 3 |
| WeekPage.LookupPlusSign | src/pages/WeekPage.jsx:34 | "+7" shows week 7 |
| WeekPage.LookupHexadecimal | src/pages/WeekPage.jsx:34 | "0xA" shows week 10 |
| WeekPage.LookupMinusZero | src/pages/WeekPage.jsx:34 | "-0" shows week 0 |
| WeekPage.LookupLastWeek | src/pages/WeekPage.jsx:34 | "10" shows week 10 |
| WeekPage.LookupPastLastWeek | src/pages/WeekPage.jsx:41-54 | "11" shows the not-found page |
| WeekPage.LookupFarPastLastWeek | src/pages/WeekPage.jsx:38-40 | "999" shows the not-found page |
| WeekPage.LookupMinusOne | src/pages/WeekPage.jsx:41-54 | "-1" shows the not-found page |
| WeekPage.LookupWord | src/pages/WeekPage.jsx:38-40 | "banana" shows the not-found page |
| WeekPage.LookupBareHexPrefix | src/pages/WeekPage.jsx:41-54 | "0x" shows the not-found page |
| WeekPage.NavigationExamples | src/pages/WeekPage.jsx:64-65 | Week 3 links to weeks 2 and 4, week 10 only to week 9, week 0 only to week 1 |

## Left out

- Rendering: the JSX layout, the home grid, the navigation bar and the code block are markup around the modelled values. Only the values they compute are modelled: the table, the lookup, the links.
- Routing: React Router's matching of `/week/:weekId`, `useParams` and `NavLink` highlighting are library code outside the project. The model starts from the segment the route binds. Percent-decoding of that segment happens in the router and is not modelled.
- The `onError` placeholder image, the clipboard copy and the "Copied" timer of the code block are browser I/O and timers.
- Whether a GIF file exists, and how the browser resolves a relative GIF path, are outside the program. Only the path text is modelled.
- The prose of each record (description, the text of each learning, challenges, code snippet) is elided. No property depends on it, and keeping it would make every proof about the table much larger. Ids, titles, topics, GIF paths, sketch addresses and the number of learnings are exact.
- ParseInt: the result is an exact integer. The rounding of the computed Number to a double above 2^53 is not modelled. That does not affect which ids 0 to 10 match, because an exact value outside that range stays outside it after rounding.
- ParseInt: characters are Dafny characters, not UTF-16 code units. White space is the set ECMA-262 lists, all of which lie in the Basic Multilingual Plane.
- DecimalString: it covers non-negative integers only, which is what the ids are. Exponent notation for Numbers of 10^21 and above is not modelled.
- Prefix matching of the segment: the page accepts any segment whose numeric prefix is an id ("3abc" and "3.5" show week 3, "0xA" shows week 10), because the code calls `parseInt`. The model follows the code. A reading of the site's intent as whole-segment matching would reject these segments.
