/** resume_parser.py: splitting a résumé into titled sections and splitting
    a section into skills or list items. The regex-based extractors
    (personal details, experience and education entries) are parameters. */
module ResumeParser {
  import opened Wrappers
  import opened Text

  // ------------------------------------------------------- section headers

  /** The section keys and the header phrases that announce them, in the
      order they are tried. */
  const SectionTable: seq<(string, seq<string>)> := [
    ("personal_info", ["personal information", "contact", "profile"]),
    ("summary", ["summary", "professional summary", "profile summary", "about me"]),
    ("experience", ["experience", "work experience", "employment history", "work history"]),
    ("education", ["education", "academic background", "educational background"]),
    ("skills", ["skills", "technical skills", "core competencies", "competencies"]),
    ("certifications", ["certifications", "certificates", "professional certifications"]),
    ("projects", ["projects", "key projects", "professional projects"]),
    ("languages", ["languages", "language proficiency"]),
    ("interests", ["interests", "hobbies", "activities"])
  ]

  const SectionKeys: set<string> :=
    {"personal_info", "summary", "experience", "education", "skills",
     "certifications", "projects", "languages", "interests"}

  /** A regex word character (`\w` on ASCII). */
  predicate IsWordChar(c: char)
  {
    'a' <= c <= 'z' || 'A' <= c <= 'Z' || '0' <= c <= '9' || c == '_'
  }

  /** `header` occurs in `line` at `i` between word boundaries: the pattern
      `\bheader\b` for a header that starts and ends with a letter. */
  predicate WholeWordAt(line: string, header: string, i: int)
  {
    0 <= i && i + |header| <= |line| && line[i..i + |header|] == header
    && (i == 0 || !IsWordChar(line[i - 1]))
    && (i + |header| == |line| || !IsWordChar(line[i + |header|]))
  }

  predicate HasWholeWord(line: string, header: string)
  {
    exists i :: 0 <= i <= |line| - |header| && WholeWordAt(line, header, i)
  }

  predicate AnyHeaderIn(lowered: string, headers: seq<string>)
  {
    exists j :: 0 <= j < |headers| && HasWholeWord(lowered, headers[j])
  }

  /** The keys of a header table. */
  function TableKeys(table: seq<(string, seq<string>)>): set<string>
  {
    set t | 0 <= t < |table| :: table[t].0
  }

  /** The first section of `table` one of whose headers occurs in the line. */
  function HeaderKeyIn(lowered: string, table: seq<(string, seq<string>)>): (r: Option<string>)
    ensures r.Some? ==> r.value in TableKeys(table)
  {
    if table == [] then None
    else if AnyHeaderIn(lowered, table[0].1) then Some(table[0].0)
    else
      var r := HeaderKeyIn(lowered, table[1..]);
      assert r.Some? ==> r.value in TableKeys(table) by {
        if r.Some? {
          var t :| 0 <= t < |table[1..]| && table[1..][t].0 == r.value;
          assert table[t + 1].0 == r.value;
        }
      }
      r
  }

  /** The section a (stripped) line announces, matched on its lower-case form. */
  function HeaderKey(line: string, table: seq<(string, seq<string>)>): (r: Option<string>)
    ensures r.Some? ==> r.value in TableKeys(table)
  {
    HeaderKeyIn(LowerStr(line), table)
  }

  /** The loops over the table and its headers in _identify_sections: the
      first section, in table order, with a header in the lower-cased line. */
  method FindHeader(line: string, table: seq<(string, seq<string>)>) returns (key: Option<string>)
    ensures key == HeaderKey(line, table)
  {
    var lowered := LowerStr(line);
    var t := 0;
    while t < |table|
      invariant 0 <= t <= |table|
      invariant HeaderKeyIn(lowered, table) == HeaderKeyIn(lowered, table[t..])
    {
      HeaderKeyInStep(lowered, table, t);
      var found := AnyHeaderFound(lowered, table[t].1);
      if found {
        return Some(table[t].0);
      }
      t := t + 1;
    }
    return None;
  }

  /** The inner loop over one section's headers. */
  method AnyHeaderFound(lowered: string, headers: seq<string>) returns (found: bool)
    ensures found == AnyHeaderIn(lowered, headers)
  {
    var j := 0;
    while j < |headers|
      invariant 0 <= j <= |headers|
      invariant forall j' :: 0 <= j' < j ==> !HasWholeWord(lowered, headers[j'])
    {
      if HasWholeWord(lowered, headers[j]) {
        return true;
      }
      j := j + 1;
    }
    return false;
  }

  /** One step of the search through the table. */
  lemma HeaderKeyInStep(lowered: string, table: seq<(string, seq<string>)>, t: int)
    requires 0 <= t < |table|
    ensures HeaderKeyIn(lowered, table[t..])
         == if AnyHeaderIn(lowered, table[t].1) then Some(table[t].0) else HeaderKeyIn(lowered, table[t + 1..])
  {
    assert table[t..][1..] == table[t + 1..];
  }

  // ------------------------------------------------------- sections

  type Table = seq<(string, seq<string>)>

  /** The scanner's state: the open section, its lines so far, and the
      blocks of lines stored for closed sections. */
  datatype Scan = Scan(current: Option<string>, content: seq<string>, blocks: map<string, seq<string>>)

  const Start := Scan(None, [], map[])

  /** One line: blank lines are skipped; a header closes the open section
      (stored even when empty) and opens its own; any other line joins the
      open section, or is dropped before the first header. */
  function ScanLine(st: Scan, raw: string, table: Table): Scan
  {
    var line := Strip(raw);
    if line == [] then st
    else match HeaderKey(line, table)
      case Some(k) =>
        Scan(Some(k), [], if st.current.Some? then st.blocks[st.current.value := st.content] else st.blocks)
      case None =>
        if st.current.Some? then st.(content := st.content + [line]) else st
  }

  function ScanLines(lines: seq<string>, table: Table): Scan
  {
    if lines == [] then Start else ScanLine(ScanLines(lines[..|lines| - 1], table), lines[|lines| - 1], table)
  }

  /** The last section is stored only when it has lines. */
  function Finish(st: Scan): map<string, seq<string>>
  {
    if st.current.Some? && st.content != [] then st.blocks[st.current.value := st.content] else st.blocks
  }

  function JoinBlocks(blocks: map<string, seq<string>>): (r: map<string, string>)
    ensures r.Keys == blocks.Keys
  {
    map k | k in blocks :: Join(blocks[k], "\n")
  }

  function BlocksOfLines(lines: seq<string>, table: Table): map<string, seq<string>>
  {
    Finish(ScanLines(lines, table))
  }

  /** _identify_sections as a function of the text. */
  function Sections(text: string, table: Table): map<string, string>
  {
    JoinBlocks(BlocksOfLines(SplitOn(text, {'\n'}), table))
  }

  lemma JoinBlocksUpdate(blocks: map<string, seq<string>>, k: string, v: seq<string>)
    ensures JoinBlocks(blocks[k := v]) == JoinBlocks(blocks)[k := Join(v, "\n")]
  {
  }

  /** _identify_sections with the parser's header table: the section texts,
      each its lines joined by newlines. */
  method IdentifySections(text: string, table: Table) returns (sections: map<string, string>)
    ensures sections == Sections(text, table)
  {
    var lines := SplitOn(text, {'\n'});
    var current: Option<string> := None;
    var content: seq<string> := [];
    ghost var blocks: map<string, seq<string>> := map[];
    sections := map[];
    var i := 0;
    while i < |lines|
      invariant 0 <= i <= |lines|
      invariant Scan(current, content, blocks) == ScanLines(lines[..i], table)
      invariant sections == JoinBlocks(blocks)
    {
      assert lines[..i + 1][..i] == lines[..i];
      var line := Strip(lines[i]);
      if line != [] {
        var found := FindHeader(line, table);
        if found.Some? {
          if current.Some? {
            JoinBlocksUpdate(blocks, current.value, content);
            sections := sections[current.value := Join(content, "\n")];
            blocks := blocks[current.value := content];
          }
          current := found;
          content := [];
        } else if current.Some? {
          content := content + [line];
        }
      }
      i := i + 1;
    }
    assert lines[..i] == lines;
    if current.Some? && content != [] {
      JoinBlocksUpdate(blocks, current.value, content);
      sections := sections[current.value := Join(content, "\n")];
    }
  }

  /** A stored line: not blank, no surrounding whitespace, not a header. */
  predicate CleanLine(c: string, table: Table)
  {
    c != [] && !IsSpace(c[0]) && !IsSpace(c[|c| - 1]) && HeaderKey(c, table).None?
  }

  predicate CleanScan(st: Scan, table: Table)
  {
    (st.current.Some? ==> st.current.value in TableKeys(table))
    && (st.current.None? ==> st.content == [] && st.blocks == map[])
    && (forall i :: 0 <= i < |st.content| ==> CleanLine(st.content[i], table))
    && (forall k :: k in st.blocks ==> k in TableKeys(table))
    && (forall k, i :: k in st.blocks && 0 <= i < |st.blocks[k]| ==> CleanLine(st.blocks[k][i], table))
  }

  lemma ScanLineClean(st: Scan, raw: string, table: Table)
    requires CleanScan(st, table)
    ensures CleanScan(ScanLine(st, raw, table), table)
  {
    var line := Strip(raw);
    if line != [] && HeaderKey(line, table).None? && st.current.Some? {
      assert CleanLine(line, table);
      ContentAppendClean(st, line, table);
    }
  }

  /** Appending a clean line to the open section keeps the scan clean. */
  lemma ContentAppendClean(st: Scan, line: string, table: Table)
    requires CleanScan(st, table) && st.current.Some? && CleanLine(line, table)
    ensures CleanScan(st.(content := st.content + [line]), table)
  {
    var c := st.content + [line];
    assert forall i :: 0 <= i < |st.content| ==> c[i] == st.content[i];
  }

  lemma {:induction false} ScanLinesClean(lines: seq<string>, table: Table)
    ensures CleanScan(ScanLines(lines, table), table)
  {
    if lines != [] {
      ScanLinesClean(lines[..|lines| - 1], table);
      ScanLineClean(ScanLines(lines[..|lines| - 1], table), lines[|lines| - 1], table);
    }
  }

  /** Sections are named by table keys and hold only non-blank, stripped,
      non-header lines; with no header line at all there are no sections. */
  lemma BlocksOfLinesClean(lines: seq<string>, table: Table)
    ensures var b := BlocksOfLines(lines, table);
            (forall k :: k in b ==> k in TableKeys(table))
            && (forall k, i :: k in b && 0 <= i < |b[k]| ==> CleanLine(b[k][i], table))
            && (ScanLines(lines, table).current.None? ==> b == map[])
  {
    ScanLinesClean(lines, table);
  }

  /** Lines before the first header are dropped. */
  lemma {:induction false} NoHeaderNoSections(lines: seq<string>, table: Table)
    requires forall i :: 0 <= i < |lines| ==> Strip(lines[i]) == [] || HeaderKey(Strip(lines[i]), table).None?
    ensures ScanLines(lines, table) == Start
    ensures BlocksOfLines(lines, table) == map[]
  {
    if lines != [] {
      NoHeaderNoSections(lines[..|lines| - 1], table);
    }
  }

  /** After a header line, the section's content is exactly the clean lines
      that follow it. */
  lemma ScanAfterHeader(pre: seq<string>, h: string, body: seq<string>, k: string, table: Table)
    requires Strip(h) != [] && HeaderKey(Strip(h), table) == Some(k)
    requires forall i :: 0 <= i < |body| ==> CleanLine(body[i], table)
    ensures ScanLines(pre + [h] + body, table)
            == Scan(Some(k), body, ScanLine(ScanLines(pre, table), h, table).blocks)
  {
    ScanLinesSnoc(pre, h, table);
    ScanFromHeader(pre + [h], body, k, ScanLine(ScanLines(pre, table), h, table).blocks, table);
  }

  /** Clean lines after an open, still empty section all join it. */
  lemma {:induction false} ScanFromHeader(lines: seq<string>, body: seq<string>, k: string,
                                           blocks: map<string, seq<string>>, table: Table)
    requires ScanLines(lines, table) == Scan(Some(k), [], blocks)
    requires forall i :: 0 <= i < |body| ==> CleanLine(body[i], table)
    ensures ScanLines(lines + body, table) == Scan(Some(k), body, blocks)
    decreases |body|
  {
    if body == [] {
      assert lines + body == lines;
    } else {
      var init := body[..|body| - 1];
      var last := body[|body| - 1];
      ScanFromHeader(lines, init, k, blocks, table);
      ScanLinesSnoc(lines + init, last, table);
      ScanContentLine(k, init, blocks, last, table);
      AppendSnoc(lines, body);
    }
  }

  lemma AppendSnoc(a: seq<string>, b: seq<string>)
    requires b != []
    ensures a + b[..|b| - 1] + [b[|b| - 1]] == a + b
    ensures b[..|b| - 1] + [b[|b| - 1]] == b
  {
  }

  /** A clean line joins the open section. */
  lemma ScanContentLine(k: string, content: seq<string>, blocks: map<string, seq<string>>, line: string, table: Table)
    requires CleanLine(line, table)
    ensures ScanLine(Scan(Some(k), content, blocks), line, table) == Scan(Some(k), content + [line], blocks)
  {
    StripClean(line);
  }

  lemma ScanLinesSnoc(lines: seq<string>, line: string, table: Table)
    ensures ScanLines(lines + [line], table) == ScanLine(ScanLines(lines, table), line, table)
  {
    assert (lines + [line])[..|lines|] == lines;
  }

  /** The lines under the last header form that section, whatever came
      before; a key seen earlier is overwritten by the later block. */
  lemma LastSectionWins(pre: seq<string>, h: string, body: seq<string>, k: string, table: Table)
    requires Strip(h) != [] && HeaderKey(Strip(h), table) == Some(k)
    requires body != [] && forall i :: 0 <= i < |body| ==> CleanLine(body[i], table)
    ensures var b := BlocksOfLines(pre + [h] + body, table);
            k in b && b[k] == body
  {
    ScanAfterHeader(pre, h, body, k, table);
  }

  /** A header directly followed by another header leaves an empty section
      behind, while a header with nothing after it leaves no section. */
  lemma EmptySections(h1: string, h2: string, k1: string, k2: string, table: Table)
    requires Strip(h1) != [] && HeaderKey(Strip(h1), table) == Some(k1)
    requires Strip(h2) != [] && HeaderKey(Strip(h2), table) == Some(k2)
    ensures BlocksOfLines([h1, h2], table) == map[k1 := []]
    ensures BlocksOfLines([h1], table) == map[]
  {
    assert [h1, h2][..1] == [h1];
    assert [h1][..0] == [];
    assert ScanLines([h1], table) == Scan(Some(k1), [], map[]);
  }

  /** A text made of one header line and clean lines (none containing a
      newline) has exactly that one section, holding those lines. */
  lemma SingleSectionText(h: string, body: seq<string>, k: string, table: Table)
    requires Strip(h) != [] && HeaderKey(Strip(h), table) == Some(k)
    requires body != [] && forall i :: 0 <= i < |body| ==> CleanLine(body[i], table)
    requires forall j :: 0 <= j < |h| ==> h[j] != '\n'
    requires forall i, j :: 0 <= i < |body| && 0 <= j < |body[i]| ==> body[i][j] != '\n'
    ensures Sections(Join([h] + body, "\n"), table) == map[k := Join(body, "\n")]
  {
    LinesOfText(h, body);
    SingleSectionBlocks(h, body, k, table);
    JoinBlocksUpdate(map[], k, body);
    assert JoinBlocks(map[]) == map[];
  }

  /** Splitting the joined lines on newlines gives the lines back. */
  lemma LinesOfText(h: string, body: seq<string>)
    requires forall j :: 0 <= j < |h| ==> h[j] != '\n'
    requires forall i, j :: 0 <= i < |body| && 0 <= j < |body[i]| ==> body[i][j] != '\n'
    ensures SplitOn(Join([h] + body, "\n"), {'\n'}) == [h] + body
  {
    var lines := [h] + body;
    forall i, j | 0 <= i < |lines| && 0 <= j < |lines[i]| ensures lines[i][j] !in {'\n'} {
      if i > 0 {
        assert lines[i] == body[i - 1];
      }
    }
    SplitOnOfJoin(lines, '\n', {'\n'});
  }

  /** One header followed by clean lines stores those lines under the
      header's key. */
  lemma SingleSectionBlocks(h: string, body: seq<string>, k: string, table: Table)
    requires Strip(h) != [] && HeaderKey(Strip(h), table) == Some(k)
    requires body != [] && forall i :: 0 <= i < |body| ==> CleanLine(body[i], table)
    ensures BlocksOfLines([h] + body, table) == map[k := body]
  {
    assert [] + [h] + body == [h] + body;
    ScanAfterHeader([], h, body, k, table);
    assert ScanLine(Start, h, table).blocks == map[];
  }

  // ------------------------------------------------------- list items

  /** Strip every piece and drop the empty ones. */
  function CleanPieces(pieces: seq<string>): (r: seq<string>)
    ensures |r| <= |pieces|
    ensures forall i :: 0 <= i < |r| ==> r[i] != [] && !IsSpace(r[i][0]) && !IsSpace(r[i][|r[i]| - 1])
  {
    if pieces == [] then []
    else
      var last := Strip(pieces[|pieces| - 1]);
      CleanPieces(pieces[..|pieces| - 1]) + (if last == [] then [] else [last])
  }

  /** Pieces that are already stripped and non-empty are kept as they are. */
  lemma {:induction false} CleanPiecesOfClean(pieces: seq<string>)
    requires forall i :: 0 <= i < |pieces| ==> pieces[i] != [] && !IsSpace(pieces[i][0]) && !IsSpace(pieces[i][|pieces[i]| - 1])
    ensures CleanPieces(pieces) == pieces
  {
    if pieces != [] {
      CleanPiecesOfClean(pieces[..|pieces| - 1]);
      StripClean(pieces[|pieces| - 1]);
    }
  }

  const ListSeparators: set<char> := {',', ';', '\n', '•'}

  /** _extract_list_items: split on commas, semicolons, newlines and
      bullets, strip, and keep the non-empty pieces. */
  function ListItems(text: string): (r: seq<string>)
    ensures forall i :: 0 <= i < |r| ==> r[i] != [] && !IsSpace(r[i][0]) && !IsSpace(r[i][|r[i]| - 1])
    ensures forall i, j :: 0 <= i < |r| && 0 <= j < |r[i]| ==> r[i][j] !in ListSeparators
  {
    var pieces := SplitOn(text, ListSeparators);
    CleanPiecesInside(pieces, ListSeparators);
    CleanPieces(pieces)
  }

  /** Stripping and dropping pieces adds no characters. */
  lemma {:induction false} CleanPiecesInside(pieces: seq<string>, seps: set<char>)
    requires forall i, j :: 0 <= i < |pieces| && 0 <= j < |pieces[i]| ==> pieces[i][j] !in seps
    ensures forall i, j :: 0 <= i < |CleanPieces(pieces)| && 0 <= j < |CleanPieces(pieces)[i]| ==>
              CleanPieces(pieces)[i][j] !in seps
  {
    if pieces != [] {
      var init := pieces[..|pieces| - 1];
      assert forall i :: 0 <= i < |init| ==> init[i] == pieces[i];
      CleanPiecesInside(init, seps);
      var p := pieces[|pieces| - 1];
      var s := Strip(p);
      var off := StripSlice(p);
      assert forall j :: 0 <= j < |s| ==> s[j] == p[off + j];
      var front := CleanPieces(init);
      var r := CleanPieces(pieces);
      assert r == front + (if s == [] then [] else [s]);
      forall i, j | 0 <= i < |r| && 0 <= j < |r[i]|
        ensures r[i][j] !in seps
      {
        if i < |front| {
          assert r[i] == front[i];
        } else {
          assert r[i][j] == p[off + j];
        }
      }
    }
  }

  /** Lines of a section that carry no separators come back as the items:
      the list splitter undoes the newline join of _identify_sections. */
  lemma ListItemsOfLines(lines: seq<string>)
    requires |lines| >= 1
    requires forall i :: 0 <= i < |lines| ==> lines[i] != [] && !IsSpace(lines[i][0]) && !IsSpace(lines[i][|lines[i]| - 1])
    requires forall i, j :: 0 <= i < |lines| && 0 <= j < |lines[i]| ==> lines[i][j] !in ListSeparators
    ensures ListItems(Join(lines, "\n")) == lines
  {
    SplitOnOfJoin(lines, '\n', ListSeparators);
    CleanPiecesOfClean(lines);
  }

  // ------------------------------------------------------- skills

  datatype SkillEntry = SkillEntry(name: string, proficiency: Option<string>)

  /** The first ')' at or after `from`. */
  function FirstClose(item: string, from: nat): (r: Option<nat>)
    ensures r.Some? ==> from <= r.value < |item| && item[r.value] == ')'
                        && forall j :: from <= j < r.value ==> item[j] != ')'
    ensures r.None? ==> forall j :: from <= j < |item| ==> item[j] != ')'
    decreases |item| - from
  {
    if from >= |item| then None
    else if item[from] == ')' then Some(from)
    else FirstClose(item, from + 1)
  }

  /** A '(' at `p` whose closing ')' comes after at least one character:
      where `\(([^)]+)\)` matches. */
  predicate OpensGroup(item: string, p: nat)
  {
    p < |item| && item[p] == '(' && FirstClose(item, p + 1).Some? && FirstClose(item, p + 1).value > p + 1
  }

  function FirstGroup(item: string, from: nat): (r: Option<nat>)
    ensures r.Some? ==> from <= r.value && OpensGroup(item, r.value)
                        && forall j :: from <= j < r.value ==> !OpensGroup(item, j)
    ensures r.None? ==> forall j :: from <= j ==> !OpensGroup(item, j)
    decreases |item| - from
  {
    if from >= |item| then None
    else if OpensGroup(item, from) then Some(from)
    else FirstGroup(item, from + 1)
  }

  /** Where the whitespace run that ends at `p` begins: the lazy `(.*?)\s*`
      hands that run to `\s*`. */
  function SpaceRunStart(item: string, p: nat): (r: nat)
    requires p <= |item|
    ensures r <= p && forall j :: r <= j < p ==> IsSpace(item[j])
    ensures r == 0 || !IsSpace(item[r - 1])
  {
    if p > 0 && IsSpace(item[p - 1]) then SpaceRunStart(item, p - 1) else p
  }

  /** One stripped item: with a parenthesised part, the text before it is
      the name and the text inside is the proficiency. */
  function SkillEntryOf(item: string): (r: SkillEntry)
    ensures r.proficiency.None? ==> r.name == item
  {
    match FirstGroup(item, 0)
    case None => SkillEntry(item, None)
    case Some(p) =>
      var q := FirstClose(item, p + 1).value;
      SkillEntry(Strip(item[..SpaceRunStart(item, p)]), Some(Strip(item[p + 1..q])))
  }

  const SkillSeparators: set<char> := {',', ';', '\n'}

  function SkillItems(text: string): seq<string>
  {
    CleanPieces(SplitOn(text, SkillSeparators))
  }

  /** _extract_skills: one entry per non-empty stripped piece, in order. */
  method ExtractSkills(text: string) returns (skills: seq<SkillEntry>)
    ensures |skills| == |SkillItems(text)|
    ensures forall i :: 0 <= i < |skills| ==> skills[i] == SkillEntryOf(SkillItems(text)[i])
  {
    var pieces := SplitOn(text, SkillSeparators);
    skills := [];
    var i := 0;
    while i < |pieces|
      invariant 0 <= i <= |pieces|
      invariant skills == SkillEntries(CleanPieces(pieces[..i]))
    {
      CleanPiecesSnoc(pieces, i);
      var item := Strip(pieces[i]);
      if item != [] {
        SkillEntriesSnoc(CleanPieces(pieces[..i]), item);
        skills := skills + [SkillEntryOf(item)];
      }
      i := i + 1;
    }
    assert pieces[..i] == pieces;
    SkillEntriesAt(SkillItems(text));
  }

  /** The entries of the items, one each, in order. */
  function SkillEntries(items: seq<string>): seq<SkillEntry>
  {
    if items == [] then [] else SkillEntries(items[..|items| - 1]) + [SkillEntryOf(items[|items| - 1])]
  }

  lemma SkillEntriesSnoc(items: seq<string>, item: string)
    ensures SkillEntries(items + [item]) == SkillEntries(items) + [SkillEntryOf(item)]
  {
    assert (items + [item])[..|items|] == items;
  }

  lemma {:induction false} SkillEntriesAt(items: seq<string>)
    ensures |SkillEntries(items)| == |items|
    ensures forall i :: 0 <= i < |items| ==> SkillEntries(items)[i] == SkillEntryOf(items[i])
  {
    if items != [] {
      SkillEntriesAt(items[..|items| - 1]);
    }
  }

  /** One more piece adds its stripped form, unless that is empty. */
  lemma CleanPiecesSnoc(pieces: seq<string>, i: int)
    requires 0 <= i < |pieces|
    ensures Strip(pieces[i]) == [] ==> CleanPieces(pieces[..i + 1]) == CleanPieces(pieces[..i])
    ensures Strip(pieces[i]) != [] ==> CleanPieces(pieces[..i + 1]) == CleanPieces(pieces[..i]) + [Strip(pieces[i])]
  {
    assert pieces[..i + 1][..i] == pieces[..i];
    assert CleanPieces(pieces[..i]) + [] == CleanPieces(pieces[..i]);
  }

  /** A plain item is a skill with no proficiency. */
  lemma PlainSkill(item: string)
    requires forall j :: 0 <= j < |item| ==> item[j] != '('
    ensures SkillEntryOf(item) == SkillEntry(item, None)
  {
    assert forall j: nat :: !OpensGroup(item, j);
  }

  /** Writing a skill as "name (level)" and reading it back gives the name
      and the level, for a stripped name without parentheses and a
      non-empty stripped level without ')'. */
  lemma SkillRoundTrip(name: string, level: string)
    requires name != [] && !IsSpace(name[0]) && !IsSpace(name[|name| - 1])
    requires forall j :: 0 <= j < |name| ==> name[j] != '(' && name[j] != ')'
    requires level != [] && !IsSpace(level[0]) && !IsSpace(level[|level| - 1])
    requires forall j :: 0 <= j < |level| ==> level[j] != ')'
    ensures SkillEntryOf(name + " (" + level + ")") == SkillEntry(name, Some(level))
  {
    var item := name + " (" + level + ")";
    var p := |name| + 1;
    var q := |item| - 1;
    assert item[p] == '(';
    assert forall j :: p + 1 <= j < q ==> item[j] == level[j - p - 1];
    assert item[q] == ')';
    assert forall j :: p + 1 <= j < q ==> item[j] != ')';
    assert FirstClose(item, p + 1) == Some(q);
    assert OpensGroup(item, p);
    assert forall j :: 0 <= j < p ==> item[j] != '(';
    assert FirstGroup(item, 0) == Some(p);
    assert SpaceRunStart(item, p) == |name|;
    assert item[..|name|] == name;
    assert item[p + 1..q] == level;
    StripClean(name);
    StripClean(level);
  }

  // ------------------------------------------------------- parse_resume

  /** parse_resume's dictionary: all nine keys are always present. */
  datatype Resume<P, E, D> = Resume(
    personalInfo: P, summary: string, experience: seq<E>, education: seq<D>,
    skills: seq<SkillEntry>, certifications: seq<string>, projects: seq<string>,
    languages: seq<string>, interests: seq<string>)

  /** An optional list section: its items, or [] when it is absent. */
  function ListSection(sections: map<string, string>, key: string): (r: seq<string>)
    ensures key !in sections ==> r == []
    ensures key in sections ==> r == ListItems(sections[key])
  {
    if key in sections then ListItems(sections[key]) else []
  }

  /** parse_resume. The summary defaults to "" and every list to []; a
      section present in the text fills its key through its extractor. */
  method ParseResume<P, E, D>(text: string, personalInfo: string -> P,
                              experience: string -> seq<E>, education: string -> seq<D>)
    returns (r: Resume<P, E, D>)
    ensures var s := Sections(text, SectionTable);
            r.personalInfo == personalInfo(text)
            && r.summary == (if "summary" in s then s["summary"] else "")
            && r.experience == (if "experience" in s then experience(s["experience"]) else [])
            && r.education == (if "education" in s then education(s["education"]) else [])
            && r.certifications == ListSection(s, "certifications")
            && r.projects == ListSection(s, "projects")
            && r.languages == ListSection(s, "languages")
            && r.interests == ListSection(s, "interests")
    ensures var s := Sections(text, SectionTable);
            "skills" !in s ==> r.skills == []
    ensures var s := Sections(text, SectionTable);
            "skills" in s ==> |r.skills| == |SkillItems(s["skills"])|
                              && forall i :: 0 <= i < |r.skills| ==> r.skills[i] == SkillEntryOf(SkillItems(s["skills"])[i])
  {
    var sections := IdentifySections(text, SectionTable);
    var skills: seq<SkillEntry> := [];
    if "skills" in sections {
      skills := ExtractSkills(sections["skills"]);
    }
    r := Resume(personalInfo(text),
                if "summary" in sections then sections["summary"] else "",
                if "experience" in sections then experience(sections["experience"]) else [],
                if "education" in sections then education(sections["education"]) else [],
                skills,
                ListSection(sections, "certifications"),
                ListSection(sections, "projects"),
                ListSection(sections, "languages"),
                ListSection(sections, "interests"));
  }
}
