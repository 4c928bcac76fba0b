/**
 * MapLoader: groups the lines of a level file into named levels, and the
 * row-major MapIterator over a level's characters. The lines are given as
 * a sequence; reading them from a file is not part of this model.
 */
module MapLoading {
  import opened Wrappers
  import opened Points

  const MapSetMarker: string := "MapSetName: "
  const LevelMarker: string := "LevelName: "

  /** m occurs in s starting at index i. */
  predicate OccursAt(s: string, m: string, i: int)
  {
    0 <= i && i + |m| <= |s| && s[i..i + |m|] == m
  }

  /** String.contains: m occurs in s at some index (ContainsOccurs). */
  function Contains(s: string, m: string): bool
    decreases |s|
  {
    if |s| < |m| then false
    else if s[..|m|] == m then true
    else Contains(s[1..], m)
  }

  /** Contains holds exactly when m occurs in s at some index. */
  lemma {:induction false} ContainsOccurs(s: string, m: string)
    ensures Contains(s, m) <==> exists i :: OccursAt(s, m, i)
    decreases |s|
  {
    if |s| < |m| {
    } else if s[..|m|] == m {
      assert OccursAt(s, m, 0);
    } else {
      ContainsOccurs(s[1..], m);
      assert !OccursAt(s, m, 0) by {
        assert s[..|m|] == s[0..0 + |m|];
      }
      if exists i :: OccursAt(s, m, i) {
        var i :| OccursAt(s, m, i);
        assert s[1..][i - 1..i - 1 + |m|] == s[i..i + |m|];
        assert OccursAt(s[1..], m, i - 1);
      }
      if exists i :: OccursAt(s[1..], m, i) {
        var i :| OccursAt(s[1..], m, i);
        assert s[1..][i..i + |m|] == s[i + 1..i + 1 + |m|];
        assert OccursAt(s, m, i + 1);
      }
    }
  }

  /**
   * String.replace(m, ""): every occurrence of m, found from left to right
   * without overlapping, is deleted (RemoveAllFirst, RemoveAllAbsent).
   */
  function RemoveAll(s: string, m: string): (r: string)
    requires |m| > 0
    ensures |r| <= |s|
    decreases |s|
  {
    if |s| < |m| then s
    else if s[..|m|] == m then RemoveAll(s[|m|..], m)
    else [s[0]] + RemoveAll(s[1..], m)
  }

  /** A line without the marker is left as it is. */
  lemma {:induction false} RemoveAllAbsent(s: string, m: string)
    requires |m| > 0 && !Contains(s, m)
    ensures RemoveAll(s, m) == s
    decreases |s|
  {
    if |s| >= |m| {
      RemoveAllAbsent(s[1..], m);
      SplitFirst(s);
    }
  }

  /** i is the first index at which m occurs in s. */
  predicate FirstOccurrence(s: string, m: string, i: nat)
  {
    OccursAt(s, m, i) && forall j :: 0 <= j < i ==> !OccursAt(s, m, j)
  }

  /**
   * String.replace works from left to right: everything before the first
   * occurrence of m is kept, that occurrence is deleted, and the rest of the
   * line is treated the same way (so occurrences never overlap).
   */
  lemma RemoveAllFirst(s: string, m: string, i: nat)
    requires |m| > 0 && FirstOccurrence(s, m, i)
    ensures RemoveAll(s, m) == s[..i] + RemoveAll(s[i + |m|..], m)
  {
    RemoveAllFrom(s, m, i, 0);
    assert s[0..] == s && s[0..i] == s[..i];
  }

  /** RemoveAllFirst for the suffix of s from k, up to the first occurrence at i. */
  lemma {:induction false} RemoveAllFrom(s: string, m: string, i: nat, k: nat)
    requires |m| > 0 && FirstOccurrence(s, m, i) && k <= i
    ensures RemoveAll(s[k..], m) == s[k..i] + RemoveAll(s[i + |m|..], m)
    decreases i - k
  {
    if k == i {
      RemoveAllAt(s, m, i);
    } else {
      RemoveAllFrom(s, m, i, k + 1);
      RemoveAllSkipAt(s, m, k, i, RemoveAll(s[i + |m|..], m));
    }
  }

  /** A suffix starting with m loses that occurrence. */
  lemma RemoveAllAt(s: string, m: string, i: nat)
    requires |m| > 0 && OccursAt(s, m, i)
    ensures RemoveAll(s[i..], m) == s[i..i] + RemoveAll(s[i + |m|..], m)
  {
    assert s[i..][..|m|] == s[i..i + |m|];
    assert s[i..][|m|..] == s[i + |m|..];
    assert s[i..i] == [];
  }

  /** A suffix not starting with m keeps its first character. */
  lemma RemoveAllSkipAt(s: string, m: string, k: nat, i: nat, r: string)
    requires |m| > 0 && k < i && OccursAt(s, m, i) && !OccursAt(s, m, k)
    requires RemoveAll(s[k + 1..], m) == s[k + 1..i] + r
    ensures RemoveAll(s[k..], m) == s[k..i] + r
  {
    SuffixSlices(s, k, i, m);
    RemoveAllSkip(s[k..], m);
  }

  /** A line not starting with m keeps its first character. */
  lemma RemoveAllSkip(s: string, m: string)
    requires |m| > 0 && |s| >= |m| && s[..|m|] != m
    ensures RemoveAll(s, m) == [s[0]] + RemoveAll(s[1..], m)
  {
  }

  /** How the suffix of s from k splits. */
  lemma SuffixSlices(s: string, k: nat, i: nat, m: string)
    requires k < i && i + |m| <= |s|
    ensures s[k..][..|m|] == s[k..k + |m|] && s[k..][1..] == s[k + 1..]
    ensures forall r: string :: [s[k]] + (s[k + 1..i] + r) == s[k..i] + r
  {
    assert [s[k]] + s[k + 1..i] == s[k..i];
    forall r: string ensures [s[k]] + (s[k + 1..i] + r) == s[k..i] + r {
      assert [s[k]] + (s[k + 1..i] + r) == ([s[k]] + s[k + 1..i]) + r;
    }
  }

  /** A non-empty string is its first character followed by the rest. */
  lemma SplitFirst(s: string)
    requires |s| > 0
    ensures [s[0]] + s[1..] == s
  {
    assert forall i :: 0 <= i < |s| ==> ([s[0]] + s[1..])[i] == s[i];
  }

  /** A marker line is reduced to the text after the marker, when that text does not repeat it. */
  lemma RemoveMarker(m: string, n: string)
    requires |m| > 0 && !Contains(n, m)
    ensures Contains(m + n, m) && RemoveAll(m + n, m) == n
  {
    assert (m + n)[..|m|] == m;
    assert (m + n)[|m|..] == n;
    RemoveAllAbsent(n, m);
  }

  /** A level: its name and its rows of characters, in file order. */
  datatype Level = Level(name: string, content: seq<string>)

  /** Level.getX: the length of the first row. */
  function GetX(lv: Level): int
    requires |lv.content| > 0
  {
    |lv.content[0]|
  }

  /** Level.getY: the number of rows. */
  function GetY(lv: Level): int
  {
    |lv.content|
  }

  // ---------------------------------------------------------------------------
  // Line classification

  /** What the loader has read so far: the map name (null until set) and the levels. */
  datatype Loaded = Loaded(name: Option<string>, levels: seq<Level>)

  predicate IsMapSetLine(s: string)
  {
    Contains(s, MapSetMarker)
  }

  predicate IsLevelLine(s: string)
  {
    !Contains(s, MapSetMarker) && Contains(s, LevelMarker)
  }

  predicate IsRowLine(s: string)
  {
    !Contains(s, MapSetMarker) && !Contains(s, LevelMarker) && s != ""
  }

  /** One iteration of the constructor's loop. */
  function ParseLine(st: Loaded, s: string): Loaded
  {
    if Contains(s, MapSetMarker) then st.(name := Some(RemoveAll(s, MapSetMarker)))
    else if Contains(s, LevelMarker) then st.(levels := st.levels + [Level(RemoveAll(s, LevelMarker), [])])
    else if s != "" then
      var lastIndex := |st.levels| - 1;
      if lastIndex > -1 then
        st.(levels := st.levels[lastIndex := st.levels[lastIndex].(content := st.levels[lastIndex].content + [s])])
      else st
    else st
  }

  /** The loop from state st over the remaining lines. */
  function ParseFrom(st: Loaded, lines: seq<string>): Loaded
    decreases |lines|
  {
    if lines == [] then st else ParseFrom(ParseLine(st, lines[0]), lines[1..])
  }

  /** What the loader holds after reading all the lines. */
  function Parse(lines: seq<string>): Loaded
  {
    ParseFrom(Loaded(None, []), lines)
  }

  /** The names of the levels, in order. */
  function Names(ls: seq<Level>): (r: seq<string>)
    ensures |r| == |ls|
  {
    if ls == [] then [] else Names(ls[..|ls| - 1]) + [ls[|ls| - 1].name]
  }

  /** The rows of all the levels, in order. */
  function Flatten(ls: seq<Level>): seq<string>
  {
    if ls == [] then [] else Flatten(ls[..|ls| - 1]) + ls[|ls| - 1].content
  }

  /** The level lines of a file with their marker removed, in order. */
  function LevelNames(lines: seq<string>): seq<string>
  {
    if lines == [] then []
    else (if IsLevelLine(lines[0]) then [RemoveAll(lines[0], LevelMarker)] else []) + LevelNames(lines[1..])
  }

  /** The row lines of a file that follow some level line (open: one has been seen already). */
  function RowLines(lines: seq<string>, open: bool): seq<string>
  {
    if lines == [] then []
    else if IsLevelLine(lines[0]) then RowLines(lines[1..], true)
    else (if open && IsRowLine(lines[0]) then [lines[0]] else []) + RowLines(lines[1..], open)
  }

  /** Replacing the last level by one with the same name keeps the names. */
  lemma NamesReplaceLast(ls: seq<Level>, lv: Level)
    requires |ls| > 0 && lv.name == ls[|ls| - 1].name
    ensures Names(ls[|ls| - 1 := lv]) == Names(ls)
  {
    assert ls[|ls| - 1 := lv][..|ls| - 1] == ls[..|ls| - 1];
  }

  /**
   * Levels keep file order: the levels are named by the level lines, one
   * level per level line (lines holding both markers set the map name).
   */
  lemma {:induction false} ParseFromNames(st: Loaded, lines: seq<string>)
    ensures Names(ParseFrom(st, lines).levels) == Names(st.levels) + LevelNames(lines)
    decreases |lines|
  {
    if lines != [] {
      var s := lines[0];
      var st' := ParseLine(st, s);
      ParseFromNames(st', lines[1..]);
      if Contains(s, MapSetMarker) {
      } else if Contains(s, LevelMarker) {
        assert (st.levels + [Level(RemoveAll(s, LevelMarker), [])])[..|st.levels|] == st.levels;
      } else if s != "" && |st.levels| > 0 {
        NamesReplaceLast(st.levels, st.levels[|st.levels| - 1].(content := st.levels[|st.levels| - 1].content + [s]));
      }
    }
  }

  /** The level count is the number of level lines. */
  lemma LevelCount(lines: seq<string>)
    ensures |Parse(lines).levels| == |LevelNames(lines)|
    ensures Names(Parse(lines).levels) == LevelNames(lines)
  {
    ParseFromNames(Loaded(None, []), lines);
  }

  /**
   * Every row line after the first level line goes, in order, to the most
   * recent level; row lines before any level line are dropped.
   */
  lemma {:induction false} ParseFromRows(st: Loaded, lines: seq<string>)
    ensures Flatten(ParseFrom(st, lines).levels) == Flatten(st.levels) + RowLines(lines, |st.levels| > 0)
    decreases |lines|
  {
    if lines != [] {
      ParseFromRows(ParseLine(st, lines[0]), lines[1..]);
      RowsStep(st, lines);
    }
  }

  /** The rows after one line, in the terms of ParseFromRows. */
  lemma RowsStep(st: Loaded, lines: seq<string>)
    requires lines != []
    ensures var st' := ParseLine(st, lines[0]);
      Flatten(st'.levels) + RowLines(lines[1..], |st'.levels| > 0) == Flatten(st.levels) + RowLines(lines, |st.levels| > 0)
  {
    var s := lines[0];
    var open := |st.levels| > 0;
    if IsLevelLine(s) {
      ParseLineLevel(st, s);
      FlattenAppendLevel(st.levels, Level(RemoveAll(s, LevelMarker), []));
      RowLinesLevel(lines, open);
    } else if IsRowLine(s) && open {
      ParseLineRow(st, s);
      FlattenAppendRow(st.levels, s);
      RowLinesOther(lines, open);
    } else {
      ParseLineOther(st, s);
      RowLinesOther(lines, open);
    }
  }

  /** Appending a level appends its rows. */
  lemma FlattenAppendLevel(ls: seq<Level>, lv: Level)
    ensures Flatten(ls + [lv]) == Flatten(ls) + lv.content
  {
    assert (ls + [lv])[..|ls|] == ls;
  }

  /** Appending a row to the last level appends it to all the rows. */
  lemma FlattenAppendRow(ls: seq<Level>, s: string)
    requires |ls| > 0
    ensures var n := |ls| - 1;
      Flatten(ls[n := ls[n].(content := ls[n].content + [s])]) == Flatten(ls) + [s]
  {
    var n := |ls| - 1;
    assert ls[n := ls[n].(content := ls[n].content + [s])][..n] == ls[..n];
  }

  /** A line that is neither a level line nor a row line leaves the levels alone. */
  lemma ParseLineOther(st: Loaded, s: string)
    requires !IsLevelLine(s) && !(IsRowLine(s) && |st.levels| > 0)
    ensures ParseLine(st, s).levels == st.levels
  {
  }

  /** A level line opens the rows that follow it. */
  lemma RowLinesLevel(lines: seq<string>, open: bool)
    requires lines != [] && IsLevelLine(lines[0])
    ensures RowLines(lines, open) == RowLines(lines[1..], true)
  {
  }

  /** Any other line is a row of the open level exactly when it is a row line. */
  lemma RowLinesOther(lines: seq<string>, open: bool)
    requires lines != [] && !IsLevelLine(lines[0])
    ensures RowLines(lines, open) == (if open && IsRowLine(lines[0]) then [lines[0]] else []) + RowLines(lines[1..], open)
  {
  }

  /** The rows of all levels are exactly the row lines after the first level line. */
  lemma AllRows(lines: seq<string>)
    ensures Flatten(Parse(lines).levels) == RowLines(lines, false)
  {
    ParseFromRows(Loaded(None, []), lines);
  }

  /** The row lines before the first level line (all of them when there is none). */
  function LeadingRows(lines: seq<string>): seq<string>
  {
    if lines == [] || IsLevelLine(lines[0]) then []
    else (if IsRowLine(lines[0]) then [lines[0]] else []) + LeadingRows(lines[1..])
  }

  /** For each level line, in order, the row lines between it and the next level line. */
  function RowGroups(lines: seq<string>): seq<seq<string>>
  {
    if lines == [] then []
    else if IsLevelLine(lines[0]) then [LeadingRows(lines[1..])] + RowGroups(lines[1..])
    else RowGroups(lines[1..])
  }

  /** The rows of each level, in order. */
  function Contents(ls: seq<Level>): (r: seq<seq<string>>)
    ensures |r| == |ls| && forall k :: 0 <= k < |ls| ==> r[k] == ls[k].content
  {
    seq(|ls|, k requires 0 <= k < |ls| => ls[k].content)
  }

  /** rows appended to the last group, when there is one. */
  function AppendToLast(cs: seq<seq<string>>, rows: seq<string>): (r: seq<seq<string>>)
    ensures |r| == |cs|
  {
    if cs == [] then [] else cs[|cs| - 1 := cs[|cs| - 1] + rows]
  }

  /** Appending twice to the last group is appending the concatenation. */
  lemma AppendToLastTwice(cs: seq<seq<string>>, a: seq<string>, b: seq<string>)
    ensures AppendToLast(AppendToLast(cs, a), b) == AppendToLast(cs, a + b)
  {
    if cs != [] {
      var k := |cs| - 1;
      assert (cs[k] + a) + b == cs[k] + (a + b);
    }
  }

  /** Appending nothing changes nothing. */
  lemma AppendToLastNothing(cs: seq<seq<string>>)
    ensures AppendToLast(cs, []) == cs
  {
    if cs != [] {
      assert cs[|cs| - 1] + [] == cs[|cs| - 1];
    }
  }

  /** A new, empty level receives the rows that follow. */
  lemma AppendToNew(cs: seq<seq<string>>, rows: seq<string>)
    ensures AppendToLast(cs + [[]], rows) == cs + [rows]
  {
    assert [] + rows == rows;
  }

  /** The levels after one line, in the terms of ParseFromGroups. */
  lemma GroupsStep(st: Loaded, lines: seq<string>)
    requires lines != []
    ensures AppendToLast(Contents(ParseLine(st, lines[0]).levels), LeadingRows(lines[1..])) + RowGroups(lines[1..])
      == AppendToLast(Contents(st.levels), LeadingRows(lines)) + RowGroups(lines)
  {
    var s := lines[0];
    var c := Contents(st.levels);
    if IsLevelLine(s) {
      var lv := Level(RemoveAll(s, LevelMarker), []);
      ParseLineLevel(st, s);
      ContentsAppend(st.levels, lv);
      LevelLineOpens(lines);
      GroupsLevelLine(c, LeadingRows(lines[1..]), RowGroups(lines[1..]));
    } else if IsRowLine(s) {
      ParseLineRow(st, s);
      GroupsRowLine(c, lines, LeadingRows(lines[1..]));
    } else {
      ParseLineOther(st, s);
      assert LeadingRows(lines) == LeadingRows(lines[1..]);
    }
  }

  /** A level line appends a new, empty level. */
  lemma ParseLineLevel(st: Loaded, s: string)
    requires IsLevelLine(s)
    ensures ParseLine(st, s).levels == st.levels + [Level(RemoveAll(s, LevelMarker), [])]
  {
  }

  /** A row line is appended to the last level, if there is one. */
  lemma ParseLineRow(st: Loaded, s: string)
    requires IsRowLine(s)
    ensures Contents(ParseLine(st, s).levels) == AppendToLast(Contents(st.levels), [s])
  {
  }

  /** A level line opens a level that receives the rows up to the next level line. */
  lemma GroupsLevelLine(c: seq<seq<string>>, rows: seq<string>, g: seq<seq<string>>)
    ensures AppendToLast(c + [[]], rows) + g == AppendToLast(c, []) + ([rows] + g)
  {
    AppendToNew(c, rows);
    AppendToLastNothing(c);
  }

  /** A level line ends the leading rows and opens a group of its own. */
  lemma LevelLineOpens(lines: seq<string>)
    requires lines != [] && IsLevelLine(lines[0])
    ensures LeadingRows(lines) == [] && RowGroups(lines) == [LeadingRows(lines[1..])] + RowGroups(lines[1..])
  {
  }

  /** A row line goes to the last level, if any. */
  lemma GroupsRowLine(c: seq<seq<string>>, lines: seq<string>, rows: seq<string>)
    requires lines != [] && IsRowLine(lines[0]) && rows == LeadingRows(lines[1..])
    ensures AppendToLast(AppendToLast(c, [lines[0]]), rows) + RowGroups(lines[1..])
      == AppendToLast(c, LeadingRows(lines)) + RowGroups(lines)
  {
    assert LeadingRows(lines) == [lines[0]] + rows && RowGroups(lines) == RowGroups(lines[1..]);
    AppendToLastTwice(c, [lines[0]], rows);
  }

  lemma ContentsAppend(ls: seq<Level>, lv: Level)
    ensures Contents(ls + [lv]) == Contents(ls) + [lv.content]
  {
  }

  /**
   * Which level a row joins: a row line is appended to the level opened by
   * the most recent level line, so the rows up to the first level line go to
   * the last level already open, and each level line opens a level holding
   * the row lines up to the next level line.
   */
  lemma {:induction false} ParseFromGroups(st: Loaded, lines: seq<string>)
    ensures Contents(ParseFrom(st, lines).levels)
      == AppendToLast(Contents(st.levels), LeadingRows(lines)) + RowGroups(lines)
    decreases |lines|
  {
    if lines == [] {
      AppendToLastNothing(Contents(st.levels));
    } else {
      ParseFromGroups(ParseLine(st, lines[0]), lines[1..]);
      GroupsStep(st, lines);
    }
  }

  /**
   * Level k is named by the k-th level line and holds exactly the row lines
   * between that line and the next level line, in file order.
   */
  lemma LevelRows(lines: seq<string>)
    ensures |Parse(lines).levels| == |LevelNames(lines)| == |RowGroups(lines)|
    ensures forall k :: 0 <= k < |Parse(lines).levels| ==>
      Parse(lines).levels[k] == Level(LevelNames(lines)[k], RowGroups(lines)[k])
  {
    ParseFromGroups(Loaded(None, []), lines);
    LevelCount(lines);
    LevelsFromParts(Parse(lines).levels, LevelNames(lines), RowGroups(lines));
  }

  /** Levels are determined by their names and their rows. */
  lemma LevelsFromParts(ls: seq<Level>, names: seq<string>, groups: seq<seq<string>>)
    requires Names(ls) == names && Contents(ls) == groups
    ensures forall k :: 0 <= k < |ls| ==> ls[k] == Level(names[k], groups[k])
  {
    NamesAt(ls);
  }

  /** Names lists the name of each level. */
  lemma {:induction false} NamesAt(ls: seq<Level>)
    ensures forall k :: 0 <= k < |ls| ==> Names(ls)[k] == ls[k].name
  {
    if ls != [] {
      NamesAt(ls[..|ls| - 1]);
    }
  }

  /** No line after index i sets the map name. */
  predicate NoMapSetLineAfter(lines: seq<string>, i: int)
  {
    forall j :: 0 <= j < |lines| && i < j ==> !IsMapSetLine(lines[j])
  }

  /** Without MapSetName lines the map name stays as it was. */
  lemma {:induction false} ParseFromNameKept(st: Loaded, lines: seq<string>)
    requires NoMapSetLineAfter(lines, -1)
    ensures ParseFrom(st, lines).name == st.name
    decreases |lines|
  {
    if lines != [] {
      assert !IsMapSetLine(lines[0]);
      assert NoMapSetLineAfter(lines[1..], -1) by {
        forall j | 0 <= j < |lines[1..]| ensures !IsMapSetLine(lines[1..][j]) {
          assert lines[1..][j] == lines[j + 1];
        }
      }
      ParseFromNameKept(ParseLine(st, lines[0]), lines[1..]);
    }
  }

  /** The map name is the last MapSetName line with its marker removed (a later one overwrites an earlier one). */
  lemma {:induction false} ParseFromNameLast(st: Loaded, lines: seq<string>, i: int)
    requires 0 <= i < |lines| && IsMapSetLine(lines[i]) && NoMapSetLineAfter(lines, i)
    ensures ParseFrom(st, lines).name == Some(RemoveAll(lines[i], MapSetMarker))
    decreases |lines|
  {
    var st' := ParseLine(st, lines[0]);
    if i == 0 {
      assert NoMapSetLineAfter(lines[1..], -1) by {
        forall j | 0 <= j < |lines[1..]| ensures !IsMapSetLine(lines[1..][j]) {
          assert lines[1..][j] == lines[j + 1];
        }
      }
      ParseFromNameKept(st', lines[1..]);
    } else {
      assert lines[1..][i - 1] == lines[i];
      assert NoMapSetLineAfter(lines[1..], i - 1) by {
        forall j | i - 1 < j < |lines[1..]| ensures !IsMapSetLine(lines[1..][j]) {
          assert lines[1..][j] == lines[j + 1];
        }
      }
      ParseFromNameLast(st', lines[1..], i - 1);
    }
  }

  /** The loader's map name: null without a MapSetName line, else the last such line without its marker. */
  lemma MapName(lines: seq<string>)
    ensures NoMapSetLineAfter(lines, -1) ==> Parse(lines).name == None
    ensures forall i :: 0 <= i < |lines| && IsMapSetLine(lines[i]) && NoMapSetLineAfter(lines, i) ==>
      Parse(lines).name == Some(RemoveAll(lines[i], MapSetMarker))
  {
    if NoMapSetLineAfter(lines, -1) {
      ParseFromNameKept(Loaded(None, []), lines);
    }
    forall i | 0 <= i < |lines| && IsMapSetLine(lines[i]) && NoMapSetLineAfter(lines, i)
      ensures Parse(lines).name == Some(RemoveAll(lines[i], MapSetMarker))
    {
      ParseFromNameLast(Loaded(None, []), lines, i);
    }
  }

  /** Every row of every level is a non-empty line holding neither marker. */
  ghost predicate RowsAreRowLines(ls: seq<Level>)
  {
    forall i, j :: 0 <= i < |ls| && 0 <= j < |ls[i].content| ==> IsRowLine(ls[i].content[j])
  }

  lemma {:induction false} ParseFromRowLines(st: Loaded, lines: seq<string>)
    requires RowsAreRowLines(st.levels)
    ensures RowsAreRowLines(ParseFrom(st, lines).levels)
    decreases |lines|
  {
    if lines != [] {
      var st' := ParseLine(st, lines[0]);
      assert RowsAreRowLines(st'.levels) by {
        var n := |st.levels|;
        forall i, j | 0 <= i < |st'.levels| && 0 <= j < |st'.levels[i].content|
          ensures IsRowLine(st'.levels[i].content[j])
        {
          if i < n && st'.levels[i] != st.levels[i] {
            assert j < |st.levels[i].content| || st'.levels[i].content[j] == lines[0];
          }
        }
      }
      ParseFromRowLines(st', lines[1..]);
    }
  }

  /** Every level row the loader produces is non-empty, so a level's width is positive when it has rows. */
  lemma ParsedRowsNonEmpty(lines: seq<string>)
    ensures RowsAreRowLines(Parse(lines).levels)
    ensures forall i :: 0 <= i < |Parse(lines).levels| && |Parse(lines).levels[i].content| > 0 ==>
      GetX(Parse(lines).levels[i]) > 0
  {
    ParseFromRowLines(Loaded(None, []), lines);
  }

  /** The loader, built from the lines of a level file. */
  class MapLoader {
    var levels: seq<Level>
    var name: Option<string>

    constructor (lines: seq<string>)
      ensures Loaded(name, levels) == Parse(lines)
    {
      levels := [];
      name := None;
      new;
      var i := 0;
      while i < |lines|
        invariant 0 <= i <= |lines|
        invariant ParseFrom(Loaded(name, levels), lines[i..]) == Parse(lines)
      {
        var s := lines[i];
        assert lines[i..] == [s] + lines[i + 1..];
        if Contains(s, MapSetMarker) {
          name := Some(RemoveAll(s, MapSetMarker));
        } else if Contains(s, LevelMarker) {
          levels := levels + [Level(RemoveAll(s, LevelMarker), [])];
        } else if s != "" {
          var lastIndex := |levels| - 1;
          if lastIndex > -1 {
            levels := levels[lastIndex := levels[lastIndex].(content := levels[lastIndex].content + [s])];
          }
        }
        i := i + 1;
      }
    }
  }

  // ---------------------------------------------------------------------------
  // Level.MapIterator

  /** MapIterator.hasNext for a level of width X and height Y. */
  predicate MapHasNext(X: int, Y: int, it: Pos)
  {
    it.y < Y - 1 || it.x < X - 1
  }

  /** The cursor step of MapIterator.next. */
  function MapNext(X: int, it: Pos): Pos
  {
    if it.x + 1 < X then Pos(it.x + 1, it.y) else Pos(0, it.y + 1)
  }

  /**
   * On a level of positive size the level iterator steps exactly as the grid
   * iterator does, so it visits every cell once in row-major order.
   */
  lemma MapIteratorIsGridIterator(X: int, Y: int, it: Pos)
    requires X >= 1 && Y >= 1 && Cursor(X, Y, it)
    ensures MapHasNext(X, Y, it) == GridHasNext(X, Y, it)
    ensures MapNext(X, it) == GridIncrement(X, it)
  {
  }

  /** Every row has the width of the first. */
  predicate Rectangular(lv: Level)
  {
    |lv.content| > 0 && forall y :: 0 <= y < |lv.content| ==> |lv.content[y]| == GetX(lv)
  }

  /** Every row is at least as long as the first, which is not empty: next never reads past a row. */
  predicate Covered(lv: Level)
  {
    |lv.content| > 0 && GetX(lv) >= 1 && forall y :: 0 <= y < |lv.content| ==> |lv.content[y]| >= GetX(lv)
  }

  /** The characters MapIterator.next returns from cursor it. */
  function MapChars(lv: Level, it: Pos): seq<char>
    requires Covered(lv) && Cursor(GetX(lv), GetY(lv), it)
    decreases GetY(lv) - it.y, GetX(lv) - it.x
  {
    if !MapHasNext(GetX(lv), GetY(lv), it) then []
    else
      var n := MapNext(GetX(lv), it);
      [lv.content[n.y][n.x]] + MapChars(lv, n)
  }

  /** The rows joined end to end. */
  function Concat(rows: seq<string>): seq<char>
  {
    if rows == [] then [] else rows[0] + Concat(rows[1..])
  }

  lemma {:induction false} MapCharsFrom(lv: Level, it: Pos)
    requires Rectangular(lv) && GetX(lv) >= 1 && Cursor(GetX(lv), GetY(lv), it)
    ensures MapChars(lv, it) == lv.content[it.y][it.x + 1..] + Concat(lv.content[it.y + 1..])
    decreases GetY(lv) - it.y, GetX(lv) - it.x
  {
    var X, Y, c := GetX(lv), GetY(lv), lv.content;
    assert |c[it.y]| == X;
    if MapHasNext(X, Y, it) {
      var n := MapNext(X, it);
      MapCharsFrom(lv, n);
      if it.x + 1 < X {
        assert c[it.y][it.x + 1..] == [c[it.y][it.x + 1]] + c[it.y][it.x + 2..];
      } else {
        assert |c[n.y]| == X;
        assert c[it.y + 1..] == [c[n.y]] + c[n.y + 1..];
        assert c[n.y] == [c[n.y][0]] + c[n.y][1..];
      }
    } else {
      assert c[it.y + 1..] == [];
    }
  }

  /** Iterating a rectangular level yields its rows joined end to end: content[y][x] once per cell, x fastest. */
  lemma MapIteratorYieldsRows(lv: Level)
    requires Rectangular(lv) && GetX(lv) >= 1
    ensures MapChars(lv, Start) == Concat(lv.content)
    ensures |MapChars(lv, Start)| == GetX(lv) * GetY(lv)
  {
    MapCharsFrom(lv, Start);
    assert lv.content[0..] == lv.content;
    ConcatLength(lv.content, GetX(lv));
  }

  lemma {:induction false} ConcatLength(rows: seq<string>, w: int)
    requires forall y :: 0 <= y < |rows| ==> |rows[y]| == w
    ensures |Concat(rows)| == w * |rows|
  {
    if rows != [] {
      ConcatLength(rows[1..], w);
      assert w * |rows| == w + w * |rows[1..]|;
    }
  }
}
