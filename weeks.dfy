/**
  The portfolio's content table: one record per week of the course, in the
  order the home grid and the navigation bar show them (src/data/weeks.js).
  The table is a single constant; nothing writes to it, so every page reads
  the same sequence.
*/
module WeekData {

  datatype WeekRecord = WeekRecord(
    id: int,
    title: string,
    topics: string,
    description: string,
    gifPath: string,
    sketchUrl: string,
    learnings: seq<string>,
    challenges: string,
    codeSnippet: string)

  /** Every record links to the same placeholder sketch address. */
  const PlaceholderSketch := "https://editor.p5js.org/your-username/sketches/xxxxx"

  /** The prose of a record (description, learnings, challenges, code
      snippet) is not needed by any property stated here and is elided; the
      number of learnings is kept. */
  const Elided := "…"

  /** The exported `weeks` array, record by record. */
  const Week0 := WeekRecord(0, "Environment Setup", "Git, VS Code, AI Workflow", Elided,
    "gifs/week0-environment.gif", PlaceholderSketch, [Elided, Elided, Elided], Elided, Elided)

  const Week1 := WeekRecord(1, "Canvas & Shapes", "Coordinate system, basic shapes, RGB color", Elided,
    "gifs/week1-canvas.gif", PlaceholderSketch, [Elided, Elided, Elided], Elided, Elided)

  const Week2 := WeekRecord(2, "Variables & Interactivity", "Variables, mouseX, mouseY, dynamic sketches", Elided,
    "gifs/week2-variables.gif", PlaceholderSketch, [Elided, Elided, Elided], Elided, Elided)

  const Week3 := WeekRecord(3, "Functions & Randomness", "Custom functions, parameters, random(), noise()", Elided,
    "/gifs/week3-functions.gif", PlaceholderSketch, [Elided, Elided, Elided], Elided, Elided)

  const Week4 := WeekRecord(4, "Conditionals", "if/else, comparison operators, state management", Elided,
    "/gifs/week4-conditionals.gif", PlaceholderSketch, [Elided, Elided, Elided], Elided, Elided)

  const Week5 := WeekRecord(5, "For Loops & Patterns", "Loop syntax, iteration, grid patterns", Elided,
    "/gifs/week5-loops.gif", PlaceholderSketch, [Elided, Elided, Elided], Elided, Elided)

  const Week6 := WeekRecord(6, "Nested Loops & Transformations", "2D grids, translate, rotate, push/pop", Elided,
    "/gifs/week6-nested.gif", PlaceholderSketch, [Elided, Elided, Elided], Elided, Elided)

  const Week7 := WeekRecord(7, "Strings & Text", "Text rendering, string manipulation, fonts", Elided,
    "/gifs/week7-strings.gif", PlaceholderSketch, [Elided, Elided, Elided], Elided, Elided)

  const Week8 := WeekRecord(8, "Arrays", "Array basics, iteration, push/pop", Elided,
    "/gifs/week8-arrays.gif", PlaceholderSketch, [Elided, Elided, Elided], Elided, Elided)

  const Week9 := WeekRecord(9, "Objects & Classes", "Object literals, classes, constructors", Elided,
    "/gifs/week9-objects.gif", PlaceholderSketch, [Elided, Elided, Elided], Elided, Elided)

  const Week10 := WeekRecord(10, "Arrays of Objects & JSON", "Managing collections, data-driven visuals, JSON loading", Elided,
    "/gifs/week10-json.gif", PlaceholderSketch, [Elided, Elided, Elided], Elided, Elided)

  const Weeks: seq<WeekRecord> := [Week0, Week1, Week2, Week3, Week4, Week5, Week6, Week7, Week8, Week9, Week10]

  /** Each record's id is its position: ids run 0, 1, 2, … in table order. */
  predicate IdsArePositions(ws: seq<WeekRecord>) {
    forall i :: 0 <= i < |ws| ==> ws[i].id == i
  }

  predicate DistinctIds(ws: seq<WeekRecord>) {
    forall i, j :: 0 <= i < j < |ws| ==> ws[i].id != ws[j].id
  }

  /** The largest id in a non-empty table. */
  function MaxId(ws: seq<WeekRecord>): (m: int)
    requires ws != []
    ensures exists i :: 0 <= i < |ws| && ws[i].id == m
    ensures forall i :: 0 <= i < |ws| ==> ws[i].id <= m
  {
    if |ws| == 1 then ws[0].id
    else
      var m' := MaxId(ws[1..]);
      assert forall i :: 1 <= i < |ws| ==> ws[i] == ws[1..][i - 1];
      if ws[0].id >= m' then ws[0].id else m'
  }

  lemma PositionalIdsAreDistinct(ws: seq<WeekRecord>)
    requires IdsArePositions(ws)
    ensures DistinctIds(ws)
  {
  }

  /** In a table whose ids are positions, the last record carries the largest id. */
  lemma MaxIdOfPositional(ws: seq<WeekRecord>)
    requires ws != [] && IdsArePositions(ws)
    ensures MaxId(ws) == |ws| - 1
  {
    var i :| 0 <= i < |ws| && ws[i].id == MaxId(ws);
    assert ws[|ws| - 1].id == |ws| - 1;
  }

  /** The shipped table has eleven records with ids 0 to 10 in order. */
  lemma WeeksIdsArePositions()
    ensures |Weeks| == 11
    ensures IdsArePositions(Weeks)
  {
  }

  lemma WeeksIdsAreDistinct()
    ensures DistinctIds(Weeks)
  {
    WeeksIdsArePositions();
    PositionalIdsAreDistinct(Weeks);
  }

  lemma WeeksMaxId()
    ensures MaxId(Weeks) == 10
  {
    WeeksIdsArePositions();
    MaxIdOfPositional(Weeks);
  }

  /** Every week lists exactly three learnings. */
  lemma WeeksLearnings()
    ensures forall i :: 0 <= i < |Weeks| ==> |Weeks[i].learnings| == 3
  {
  }

  predicate StartsWith(s: string, p: string) {
    |p| <= |s| && forall k :: 0 <= k < |p| ==> s[k] == p[k]
  }

  predicate EndsWith(s: string, p: string) {
    |p| <= |s| && forall k :: 0 <= k < |p| ==> s[|s| - |p| + k] == p[k]
  }

  /** The asset convention the file's header asks for: "/gifs/<name>.gif". */
  predicate FollowsGifConvention(path: string) {
    StartsWith(path, "/gifs/") && EndsWith(path, ".gif")
  }

  /** A GIF in the gifs/ folder, named with or without a leading slash. */
  predicate InGifsFolder(path: string) {
    (StartsWith(path, "gifs/") || StartsWith(path, "/gifs/")) && EndsWith(path, ".gif")
  }

  /** Every path names a GIF in the gifs/ folder, but only weeks 3 to 10 use
      the rooted form; weeks 0 to 2 leave out the leading slash. */
  lemma WeeksGifPaths()
    ensures forall i :: 0 <= i < |Weeks| ==> InGifsFolder(Weeks[i].gifPath)
    ensures forall i :: 0 <= i < |Weeks| ==> (FollowsGifConvention(Weeks[i].gifPath) <==> Weeks[i].id >= 3)
  {
    RelativeGifPaths();
    RootedGifPaths();
  }

  lemma RelativeGifPaths()
    ensures forall i :: 0 <= i < 3 ==> InGifsFolder(Weeks[i].gifPath) && !FollowsGifConvention(Weeks[i].gifPath)
  {
    GifPathOfWeek0();
    GifPathOfWeek1();
    GifPathOfWeek2();
  }

  lemma RootedGifPaths()
    ensures forall i :: 3 <= i < |Weeks| ==> FollowsGifConvention(Weeks[i].gifPath)
  {
    RootedGifPathsUpToWeek6();
    RootedGifPathsFromWeek7();
  }

  lemma RootedGifPathsUpToWeek6()
    ensures forall i :: 3 <= i < 7 ==> FollowsGifConvention(Weeks[i].gifPath)
  {
    GifPathOfWeek3();
    GifPathOfWeek4();
    GifPathOfWeek5();
    GifPathOfWeek6();
  }

  lemma RootedGifPathsFromWeek7()
    ensures forall i :: 7 <= i < |Weeks| ==> FollowsGifConvention(Weeks[i].gifPath)
  {
    GifPathOfWeek7();
    GifPathOfWeek8();
    GifPathOfWeek9();
    GifPathOfWeek10();
  }

  // One fact per record keeps each proof about a string literal small.
  lemma GifPathOfWeek0() ensures InGifsFolder(Week0.gifPath) && Week0.gifPath[0] != '/' { }
  lemma GifPathOfWeek1() ensures InGifsFolder(Week1.gifPath) && Week1.gifPath[0] != '/' { }
  lemma GifPathOfWeek2() ensures InGifsFolder(Week2.gifPath) && Week2.gifPath[0] != '/' { }
  lemma GifPathOfWeek3() ensures FollowsGifConvention(Week3.gifPath) { }
  lemma GifPathOfWeek4() ensures FollowsGifConvention(Week4.gifPath) { }
  lemma GifPathOfWeek5() ensures FollowsGifConvention(Week5.gifPath) { }
  lemma GifPathOfWeek6() ensures FollowsGifConvention(Week6.gifPath) { }
  lemma GifPathOfWeek7() ensures FollowsGifConvention(Week7.gifPath) { }
  lemma GifPathOfWeek8() ensures FollowsGifConvention(Week8.gifPath) { }
  lemma GifPathOfWeek9() ensures FollowsGifConvention(Week9.gifPath) { }
  lemma GifPathOfWeek10() ensures FollowsGifConvention(Week10.gifPath) { }
}
