/**
 * Reading the on-wiki opt-out list (optout.py): comments are dropped, and each bullet
 * followed by a link is an entry, whatever surrounds it.
 */
module OptOutPage {
  import opened Options

  // ---- Comments -------------------------------------------------------------------------

  const OPENER := "<!--"
  const CLOSER := "-->"

  /** Where a marker first occurs. */
  function Find(text: string, marker: string): (at: Option<nat>)
    ensures at.Some? ==> at.value + |marker| <= |text|
  {
    if marker <= text then Some(0)
    else if text == [] then None
    else
      var rest := Find(text[1..], marker);
      if rest.Some? then Some(rest.value + 1) else None
  }

  /** A marker is found at the first place it occurs. */
  lemma {:induction false} FindsFirst(text: string, marker: string, at: nat)
    requires at <= |text| && marker <= text[at..]
    requires forall i :: 0 <= i < at ==> !(marker <= text[i..])
    ensures Find(text, marker) == Some(at)
  {
    assert text[0..] == text;
    if at > 0 {
      forall i | 0 <= i < at - 1
        ensures !(marker <= text[1..][i..])
      {
        assert text[1..][i..] == text[i + 1..];
      }
      assert text[1..][at - 1..] == text[at..];
      FindsFirst(text[1..], marker, at - 1);
    }
  }

  /** Every opener through the next closer is dropped; an opener never closed is text. */
  function StripComments(text: string): string {
    if text == [] then []
    else if OPENER <= text && Find(text[4..], CLOSER).Some? then
      StripComments(text[4..][Find(text[4..], CLOSER).value..][3..])
    else [text[0]] + StripComments(text[1..])
  }

  /** A page as its author sees it: stretches of text with comments between them. */
  datatype Source = Rest(text: string) | Commented(text: string, comment: string, rest: Source)

  predicate Contains(text: string, marker: string) {
    exists i :: 0 <= i <= |text| && marker <= text[i..]
  }

  predicate WellFormed(source: Source) {
    && !Contains(source.text, OPENER)
    && (source.Commented? ==> !Contains(source.comment, CLOSER) && WellFormed(source.rest))
  }

  function Written(source: Source): string {
    match source
    case Rest(text) => text
    case Commented(text, comment, rest) => text + OPENER + comment + CLOSER + Written(rest)
  }

  function Visible(source: Source): string {
    match source
    case Rest(text) => text
    case Commented(text, comment, rest) => text + Visible(rest)
  }

  lemma OpenerBefore(text: string, rest: string)
    requires text != [] && (rest == [] || OPENER <= rest)
    requires OPENER <= text + rest
    ensures OPENER <= text
  {
    var whole := text + rest;
    assert whole[1] == '!' && whole[2] == '-' && whole[3] == '-';
    assert |text| < |whole| ==> whole[|text|] == rest[0] == '<';
    assert |text| >= 4;
    assert text[..4] == whole[..4];
  }

  lemma NoOpenerHere(text: string, rest: string)
    requires !Contains(text, OPENER) && text != []
    requires rest == [] || OPENER <= rest
    ensures !(OPENER <= text + rest) && !Contains(text[1..], OPENER)
  {
    assert text[0..] == text;
    if OPENER <= text + rest {
      OpenerBefore(text, rest);
      assert false;
    }
    forall i | 0 <= i <= |text[1..]|
      ensures !(OPENER <= text[1..][i..])
    {
      assert text[1..][i..] == text[i + 1..];
    }
  }

  lemma PassOne(text: string, rest: string)
    requires text != [] && !(OPENER <= text + rest)
    ensures StripComments(text + rest) == [text[0]] + StripComments((text + rest)[1..])
  {}

  lemma {:induction false} StripPassesText(text: string, rest: string)
    requires !Contains(text, OPENER)
    requires rest == [] || OPENER <= rest
    ensures StripComments(text + rest) == text + StripComments(rest)
  {
    if text == [] {
      assert text + rest == rest;
    } else {
      NoOpenerHere(text, rest);
      assert (text + rest)[1..] == text[1..] + rest;
      StripPassesText(text[1..], rest);
      PassOne(text, rest);
      assert [text[0]] + (text[1..] + StripComments(rest)) == text + StripComments(rest);
    }
  }

  lemma CloserBefore(comment: string, rest: string, i: nat)
    requires i < |comment| && CLOSER <= (comment + CLOSER + rest)[i..]
    ensures Contains(comment, CLOSER)
  {
    var text := comment + CLOSER + rest;
    assert text[i..][0] == text[i] && text[i..][1] == text[i + 1] && text[i..][2] == text[i + 2];
    assert i + 3 <= |comment|;
    assert comment[i..][..3] == CLOSER;
  }

  lemma FirstCloser(comment: string, rest: string)
    requires !Contains(comment, CLOSER)
    ensures Find(comment + CLOSER + rest, CLOSER) == Some(|comment|)
  {
    var text := comment + CLOSER + rest;
    assert text[|comment|..] == CLOSER + rest;
    forall i | 0 <= i < |comment|
      ensures !(CLOSER <= text[i..])
    {
      if CLOSER <= text[i..] {
        CloserBefore(comment, rest, i);
        assert false;
      }
    }
    FindsFirst(text, CLOSER, |comment|);
  }

  lemma StripDropsOne(comment: string, rest: string)
    requires !Contains(comment, CLOSER)
    ensures StripComments(OPENER + comment + CLOSER + rest) == StripComments(rest)
  {
    var body := comment + CLOSER + rest;
    var text := OPENER + comment + CLOSER + rest;
    assert text == OPENER + body;
    assert text[4..] == body;
    FirstCloser(comment, rest);
    assert body[|comment|..] == CLOSER + rest;
    assert body[|comment|..][3..] == rest;
  }

  lemma CommentsAreWritten(text: string, comment: string, rest: Source)
    ensures Written(Commented(text, comment, rest)) == text + "<!--" + comment + "-->" + Written(rest)
  {}

  /** What is left of a page is exactly what stands outside its comments. */
  lemma {:induction false} StripLeavesTheVisible(source: Source)
    requires WellFormed(source)
    ensures StripComments(Written(source)) == Visible(source)
  {
    match source
    case Rest(text) =>
      StripPassesText(text, []);
      assert text + [] == text;
    case Commented(text, comment, rest) =>
      var tail := OPENER + comment + CLOSER + Written(rest);
      assert Written(source) == text + tail;
      StripPassesText(text, tail);
      StripDropsOne(comment, Written(rest));
      StripLeavesTheVisible(rest);
  }

  lemma {:induction false} FoundIsThere(text: string, marker: string)
    requires Find(text, marker).Some?
    ensures Find(text, marker).value <= |text| && marker <= text[Find(text, marker).value..]
  {
    assert text[0..] == text;
    if !(marker <= text) {
      FoundIsThere(text[1..], marker);
      var at := Find(text[1..], marker).value;
      assert text[1..][at..] == text[at + 1..];
    }
  }

  lemma FoundIsContained(text: string, from: nat)
    requires from <= |text| && Find(text[from..], CLOSER).Some?
    ensures Contains(text, CLOSER)
  {
    var at := Find(text[from..], CLOSER).value;
    FoundIsThere(text[from..], CLOSER);
    assert text[from..][at..] == text[from + at..];
  }

  /** A comment that is never closed hides nothing. */
  lemma {:induction false} UnclosedCommentHidesNothing(text: string)
    requires !Contains(text, CLOSER)
    ensures StripComments(text) == text
  {
    if text != [] {
      forall i | 0 <= i <= |text[1..]|
        ensures !(CLOSER <= text[1..][i..])
      {
        assert text[1..][i..] == text[i + 1..];
      }
      UnclosedCommentHidesNothing(text[1..]);
      if OPENER <= text && Find(text[4..], CLOSER).Some? {
        FoundIsContained(text, 4);
        assert false;
      }
      assert text == [text[0]] + text[1..];
    }
  }

  // ---- Lines ----------------------------------------------------------------------------

  /** The characters str.splitlines() ends a line at. */
  predicate IsBreak(c: char) {
    var code := c as int;
    10 <= code <= 13 || 28 <= code <= 30 || code == 0x85 || code == 0x2028 || code == 0x2029
  }

  /** What str.isspace(), str.strip() and \s agree on. */
  predicate IsSpace(c: char) {
    var code := c as int;
    || 9 <= code <= 13 || 28 <= code <= 32 || code == 0x85 || code == 0xa0 || code == 0x1680
    || 0x2000 <= code <= 0x200a || code == 0x2028 || code == 0x2029 || code == 0x202f || code == 0x205f
       || code == 0x3000
  }

  predicate All(text: string, p: char -> bool) {
    forall i :: 0 <= i < |text| ==> p(text[i])
  }

  predicate IsLine(text: string) {
    forall i :: 0 <= i < |text| ==> !IsBreak(text[i])
  }

  /** The lines of a text; an empty line more or less than splitlines() gives is no entry. */
  function Lines(text: string): (lines: seq<string>)
    ensures lines != []
  {
    if text == [] then [[]]
    else
      var rest := Lines(text[1..]);
      if IsBreak(text[0]) then [[]] + rest else [[text[0]] + rest[0]] + rest[1..]
  }

  function Joined(lines: seq<string>): string
    requires lines != []
  {
    if |lines| == 1 then lines[0] else lines[0] + "\n" + Joined(lines[1..])
  }

  lemma {:induction false} LinesOfOne(line: string)
    requires IsLine(line)
    ensures Lines(line) == [line]
  {
    if line != [] {
      LinesOfOne(line[1..]);
      assert [line[0]] + line[1..] == line;
    }
  }

  lemma {:induction false} LinesAfterOne(line: string, rest: string)
    requires IsLine(line)
    ensures Lines(line + "\n" + rest) == [line] + Lines(rest)
  {
    var text := line + "\n" + rest;
    if line == [] {
      assert text[1..] == rest;
    } else {
      assert text[1..] == line[1..] + "\n" + rest;
      LinesAfterOne(line[1..], rest);
      assert [line[0]] + line[1..] == line;
    }
  }

  lemma {:induction false} LinesOfJoined(lines: seq<string>)
    requires lines != [] && forall i :: 0 <= i < |lines| ==> IsLine(lines[i])
    ensures Lines(Joined(lines)) == lines
  {
    if |lines| == 1 {
      LinesOfOne(lines[0]);
    } else {
      LinesOfJoined(lines[1..]);
      LinesAfterOne(lines[0], Joined(lines[1..]));
    }
  }

  // ---- One line -------------------------------------------------------------------------

  function Skip(text: string, p: char -> bool): string
  {
    if text == [] || !p(text[0]) then text else Skip(text[1..], p)
  }

  function SkipBack(text: string, p: char -> bool): string
  {
    if text == [] || !p(text[|text| - 1]) then text else SkipBack(text[..|text| - 1], p)
  }

  function Trim(text: string): string {
    SkipBack(Skip(text, IsSpace), IsSpace)
  }

  predicate IsStar(c: char) { c == '*' }
  predicate IsColon(c: char) { c == ':' }
  predicate IsStop(c: char) { c == ']' || c == '|' || c == '#' || c == '\n' }

  function UpToStop(text: string): string {
    if text == [] || IsStop(text[0]) then [] else [text[0]] + UpToStop(text[1..])
  }

  function Spaced(text: string): string {
    seq(|text|, i requires 0 <= i < |text| => if text[i] == '_' then ' ' else text[i])
  }

  /** The title a link target stands for. */
  function Cleaned(target: string): string {
    Spaced(Trim(Skip(Trim(target), IsColon)))
  }

  /** The title a line lists, if it is a bullet followed by a link. */
  function ParseLine(line: string): Option<string> {
    var stars := Skip(line, IsSpace);
    var afterStars := Skip(stars, IsStar);
    var link := Skip(afterStars, IsSpace);
    if afterStars == stars || !("[[" <= link) then None
    else Some(Cleaned(UpToStop(Skip(link[2..], IsSpace))))
  }

  /** A title that a link can spell out and that cleaning leaves as it is. */
  predicate IsTitle(title: string) {
    && title != []
    && (forall i :: 0 <= i < |title| ==> !IsStop(title[i]) && title[i] != '_')
    && !IsSpace(title[0]) && !IsSpace(title[|title| - 1]) && title[0] != ':'
  }

  /**
   * A title is a text without brackets, pipes, number signs, line ends and underscores that
   * neither begins nor ends with a blank and does not begin with a colon.
   */
  lemma TitlesSpelledOut(title: string)
    ensures IsTitle(title)
            <==> && title != []
                 && (forall i :: 0 <= i < |title| ==>
                       title[i] != ']' && title[i] != '|' && title[i] != '#' && title[i] != '\n' && title[i] != '_')
                 && !IsSpace(title[0]) && !IsSpace(title[|title| - 1]) && title[0] != ':'
  {}

  /**
   * Whatever ends a line is a blank; of the first 128 characters only tab, unit separator and
   * space are blanks besides.
   */
  lemma BlanksAndBreaks()
    ensures forall c :: IsBreak(c) ==> IsSpace(c)
    ensures forall c :: IsSpace(c) && c as int < 128 ==> IsBreak(c) || c == '\t' || c as int == 31 || c == ' '
    ensures IsSpace(' ') && IsSpace('\t') && IsSpace('\n') && !IsSpace('a') && !IsSpace('*') && !IsSpace('[')
    ensures IsBreak('\n') && IsBreak('\r') && !IsBreak(' ') && !IsBreak('a')
  {}

  lemma {:induction false} SkipPasses(front: string, rest: string, p: char -> bool)
    requires All(front, p) && (rest != [] ==> !p(rest[0]))
    ensures Skip(front + rest, p) == rest
  {
    if front == [] {
      assert front + rest == rest;
    } else {
      assert (front + rest)[1..] == front[1..] + rest;
      SkipPasses(front[1..], rest, p);
    }
  }

  lemma {:induction false} SkipBackPasses(rest: string, back: string, p: char -> bool)
    requires All(back, p) && (rest != [] ==> !p(rest[|rest| - 1]))
    ensures SkipBack(rest + back, p) == rest
  {
    if back == [] {
      assert rest + back == rest;
    } else {
      assert (rest + back)[..|rest + back| - 1] == rest + back[..|back| - 1];
      SkipBackPasses(rest, back[..|back| - 1], p);
    }
  }

  lemma TrimPasses(front: string, title: string, back: string)
    requires All(front, IsSpace) && All(back, IsSpace)
    requires title != [] && !IsSpace(title[0]) && !IsSpace(title[|title| - 1])
    ensures Trim(front + title + back) == title
  {
    assert front + title + back == front + (title + back);
    SkipPasses(front, title + back, IsSpace);
    SkipBackPasses(title, back, IsSpace);
  }

  lemma {:induction false} UpToStopPasses(text: string, tail: string)
    requires forall i :: 0 <= i < |text| ==> !IsStop(text[i])
    requires tail == [] || IsStop(tail[0])
    ensures UpToStop(text + tail) == text
  {
    if text == [] {
      assert text + tail == tail;
    } else {
      assert (text + tail)[1..] == text[1..] + tail;
      UpToStopPasses(text[1..], tail);
    }
  }

  lemma {:induction false} SkipSplits(text: string, p: char -> bool) returns (front: string)
    ensures text == front + Skip(text, p) && All(front, p)
  {
    if text == [] || !p(text[0]) {
      front := [];
      assert text == [] + text;
    } else {
      var more := SkipSplits(text[1..], p);
      front := [text[0]] + more;
      assert All(front, p);
      calc {
        text;
        [text[0]] + text[1..];
        [text[0]] + (more + Skip(text[1..], p));
        front + Skip(text[1..], p);
      }
    }
  }

  /** Only a bullet followed by a link is an entry: blanks, stars, blanks, two brackets. */
  lemma EntriesAreBulletsWithLinks(line: string) returns (indent: string, stars: string, gap: string, rest: string)
    requires ParseLine(line).Some?
    ensures line == indent + (stars + (gap + ("[[" + rest)))
    ensures All(indent, IsSpace) && stars != [] && All(stars, IsStar) && All(gap, IsSpace)
  {
    indent := SkipSplits(line, IsSpace);
    var bullet := Skip(line, IsSpace);
    stars := SkipSplits(bullet, IsStar);
    var afterStars := Skip(bullet, IsStar);
    gap := SkipSplits(afterStars, IsSpace);
    var link := Skip(afterStars, IsSpace);
    rest := link[2..];
    assert link == "[[" + rest;
    assert bullet == stars + afterStars;
  }

  /** An entry as an editor may lay it out: `  ** [[ : Title |shown]] a note`. */
  datatype Layout = Layout(indent: string, stars: string, gap: string, lead: string, colons: string, blank: string,
                           trail: string, tail: string)

  predicate IsLayout(layout: Layout) {
    && All(layout.indent, IsSpace) && All(layout.gap, IsSpace) && All(layout.lead, IsSpace)
    && layout.stars != [] && All(layout.stars, IsStar)
    && All(layout.colons, IsColon) && All(layout.blank, IsSpace)
    && All(layout.trail, IsSpace) && (forall i :: 0 <= i < |layout.trail| ==> !IsStop(layout.trail[i]))
    && (forall i :: 0 <= i < |layout.blank| ==> !IsStop(layout.blank[i]))
    && (layout.tail == [] || IsStop(layout.tail[0]))
  }

  function LinkText(layout: Layout, title: string): string {
    layout.colons + layout.blank + title + layout.trail
  }

  function EntryLine(layout: Layout, title: string): string {
    layout.indent + layout.stars + layout.gap + "[[" + layout.lead + LinkText(layout, title) + layout.tail
  }

  lemma SpacedLeavesTitles(title: string)
    requires forall i :: 0 <= i < |title| ==> title[i] != '_'
    ensures Spaced(title) == title
  {}

  lemma CleanedPlain(front: string, title: string, back: string)
    requires IsTitle(title) && All(front, IsSpace) && All(back, IsSpace)
    ensures Cleaned(front + title + back) == title
  {
    TrimPasses(front, title, back);
    assert "" + title == title && "" + title + "" == title;
    SkipPasses("", title, IsColon);
    TrimPasses("", title, "");
    SpacedLeavesTitles(title);
  }

  lemma BlankIsNoColon(blank: string, title: string)
    requires All(blank, IsSpace) && IsTitle(title)
    ensures !IsColon((blank + title)[0])
  {
    if blank != [] {
      assert IsSpace(blank[0]);
    }
  }

  lemma CleanedColons(colons: string, blank: string, title: string, back: string)
    requires colons != [] && All(colons, IsColon) && All(blank, IsSpace)
    requires IsTitle(title) && All(back, IsSpace)
    ensures Cleaned(colons + blank + title + back) == title
  {
    var inner := colons + (blank + title);
    assert colons + blank + title + back == "" + inner + back;
    assert IsColon(inner[0]);
    TrimPasses("", inner, back);
    BlankIsNoColon(blank, title);
    SkipPasses(colons, blank + title, IsColon);
    assert blank + title == blank + title + "";
    TrimPasses(blank, title, "");
    SpacedLeavesTitles(title);
  }

  lemma BulletThenLink(indent: string, stars: string, gap: string, rest: string)
    requires All(indent, IsSpace) && All(gap, IsSpace) && stars != [] && All(stars, IsStar)
    ensures ParseLine(indent + (stars + (gap + ("[[" + rest)))) == Some(Cleaned(UpToStop(Skip(rest, IsSpace))))
  {
    var link := "[[" + rest;
    var afterStars := gap + link;
    assert Skip(stars + afterStars, IsStar) == afterStars by {
      assert gap != [] ==> IsSpace(gap[0]);
      SkipPasses(stars, afterStars, IsStar);
    }
    assert Skip(indent + (stars + afterStars), IsSpace) == stars + afterStars by {
      assert IsStar(stars[0]);
      SkipPasses(indent, stars + afterStars, IsSpace);
    }
    assert Skip(afterStars, IsSpace) == link by {
      SkipPasses(gap, link, IsSpace);
    }
    assert link[2..] == rest;
    assert |stars + afterStars| > |afterStars|;
  }

  lemma ColonsAreNoStops(colons: string)
    requires All(colons, IsColon)
    ensures forall i :: 0 <= i < |colons| ==> !IsStop(colons[i])
  {
    assert forall i :: 0 <= i < |colons| ==> IsColon(colons[i]);
  }

  lemma TargetOf(layout: Layout, title: string)
    requires IsLayout(layout) && IsTitle(title)
    ensures Cleaned(UpToStop(Skip(layout.lead + LinkText(layout, title) + layout.tail, IsSpace))) == title
  {
    var target := LinkText(layout, title);
    var rest := layout.lead + target + layout.tail;
    if layout.colons == [] {
      var plain := "" + title + layout.trail;
      assert rest == (layout.lead + layout.blank) + (plain + layout.tail);
      SkipPasses(layout.lead + layout.blank, plain + layout.tail, IsSpace);
      UpToStopPasses(plain, layout.tail);
      CleanedPlain("", title, layout.trail);
    } else {
      assert rest == layout.lead + (target + layout.tail);
      assert IsColon(layout.colons[0]) && (target + layout.tail)[0] == layout.colons[0];
      SkipPasses(layout.lead, target + layout.tail, IsSpace);
      ColonsAreNoStops(layout.colons);
      UpToStopPasses(target, layout.tail);
      CleanedColons(layout.colons, layout.blank, title, layout.trail);
    }
  }

  /** However an entry is laid out, its line lists its title. */
  lemma EntryLineReadsBack(layout: Layout, title: string)
    requires IsLayout(layout) && IsTitle(title)
    ensures ParseLine(EntryLine(layout, title)) == Some(title)
  {
    var rest := layout.lead + LinkText(layout, title) + layout.tail;
    assert EntryLine(layout, title) == layout.indent + (layout.stars + (layout.gap + ("[[" + rest)));
    BulletThenLink(layout.indent, layout.stars, layout.gap, rest);
    TargetOf(layout, title);
  }

  // ---- Which titles survive -------------------------------------------------------------

  lemma {:induction false} SkipShortens(text: string, p: char -> bool)
    ensures |Skip(text, p)| <= |text|
    ensures |Skip(text, p)| == |text| ==> Skip(text, p) == text && (text != [] ==> !p(text[0]))
    ensures forall i :: 0 <= i < |Skip(text, p)| ==> Skip(text, p)[i] in text
  {
    if text != [] && p(text[0]) {
      SkipShortens(text[1..], p);
    }
  }

  lemma {:induction false} SkipBackShortens(text: string, p: char -> bool)
    ensures |SkipBack(text, p)| <= |text|
    ensures |SkipBack(text, p)| == |text| ==> SkipBack(text, p) == text && (text != [] ==> !p(text[|text| - 1]))
    ensures forall i :: 0 <= i < |SkipBack(text, p)| ==> SkipBack(text, p)[i] in text
  {
    if text != [] && p(text[|text| - 1]) {
      SkipBackShortens(text[..|text| - 1], p);
    }
  }

  lemma TrimShortens(text: string)
    ensures |Trim(text)| <= |text|
    ensures |Trim(text)| == |text| ==>
            Trim(text) == text && (text != [] ==> !IsSpace(text[0]) && !IsSpace(text[|text| - 1]))
    ensures forall i :: 0 <= i < |Trim(text)| ==> Trim(text)[i] in text
  {
    SkipShortens(text, IsSpace);
    SkipBackShortens(Skip(text, IsSpace), IsSpace);
  }

  lemma CleaningShortens(target: string)
    ensures |Cleaned(target)| <= |target|
    ensures |Cleaned(target)| == |target| && target != [] ==>
            !IsSpace(target[0]) && !IsSpace(target[|target| - 1]) && target[0] != ':'
    ensures forall i :: 0 <= i < |Cleaned(target)| ==>
            Cleaned(target)[i] != '_' && (Cleaned(target)[i] == ' ' || Cleaned(target)[i] in target)
  {
    var trimmed := Trim(target);
    var bare := Skip(trimmed, IsColon);
    TrimShortens(target);
    SkipShortens(trimmed, IsColon);
    TrimShortens(bare);
    var inner := Trim(bare);
    forall i | 0 <= i < |Cleaned(target)|
      ensures Cleaned(target)[i] != '_' && (Cleaned(target)[i] == ' ' || Cleaned(target)[i] in target)
    {
      assert inner[i] in bare && inner[i] in trimmed && inner[i] in target;
    }
    assert |Cleaned(target)| == |target| && target != [] ==> trimmed == target && !IsColon(trimmed[0]);
  }

  lemma {:induction false} UpToStopShortens(text: string)
    ensures forall i :: 0 <= i < |UpToStop(text)| ==> !IsStop(UpToStop(text)[i])
    ensures UpToStop(text) <= text
  {
    if text != [] && !IsStop(text[0]) {
      UpToStopShortens(text[1..]);
      assert text == [text[0]] + text[1..];
    }
  }

  lemma {:induction false} SkipBefore(text: string, tail: string, p: char -> bool)
    requires tail != [] ==> !p(tail[0])
    ensures Skip(text + tail, p) == Skip(text, p) + tail
  {
    if text == [] {
      assert text + tail == tail;
      assert Skip(text, p) + tail == tail;
    } else {
      assert (text + tail)[1..] == text[1..] + tail;
      SkipBefore(text[1..], tail, p);
    }
  }

  lemma ReadBackIsTitle(text: string, skipped: string, target: string)
    requires text != [] && |skipped| <= |text| && (|skipped| == |text| ==> skipped == text)
    requires target <= skipped + "]]" && forall i :: 0 <= i < |target| ==> !IsStop(target[i])
    requires |text| <= |target|
    requires |target| == |text| ==> !IsSpace(target[0]) && !IsSpace(target[|target| - 1]) && target[0] != ':'
    requires forall i :: 0 <= i < |text| ==> text[i] != '_'
    ensures IsTitle(text)
  {
    if |target| > |skipped| {
      assert IsStop((skipped + "]]")[|skipped|]);
      assert false;
    }
    assert target == text;
  }

  lemma PlainLine(text: string)
    ensures "* [[" + text + "]]" == "" + ("*" + (" " + ("[[" + (text + "]]"))))
  {}

  lemma PlainBulletIs(text: string)
    requires text != []
    ensures ParseLine("* [[" + text + "]]") == Some(Cleaned(UpToStop(Skip(text + "]]", IsSpace))))
  {
    PlainLine(text);
    assert All("*", IsStar) && All(" ", IsSpace) && All("", IsSpace);
    BulletThenLink("", "*", " ", text + "]]");
  }

  /** A plain bullet `* [[text]]` lists that very text exactly when the text is a title. */
  lemma PlainBulletReadsBackIff(text: string)
    requires text != []
    ensures ParseLine("* [[" + text + "]]") == Some(text) <==> IsTitle(text)
  {
    PlainBulletIs(text);
    SkipBefore(text, "]]", IsSpace);
    SkipShortens(text, IsSpace);
    var skipped := Skip(text, IsSpace);
    var target := UpToStop(skipped + "]]");
    if Cleaned(target) == text {
      CleaningShortens(target);
      UpToStopShortens(skipped + "]]");
      ReadBackIsTitle(text, skipped, target);
    }
    if IsTitle(text) {
      assert "" + text == text && "" + text + "" == text;
      SkipPasses("", text, IsSpace);
      UpToStopPasses(text, "]]");
      CleanedPlain("", text, "");
    }
  }

  // ---- The page -------------------------------------------------------------------------

  /** The titles of these lines, in order; an empty one lists nothing. */
  function Listed(lines: seq<string>): seq<string> {
    if lines == [] then []
    else
      var last := ParseLine(lines[|lines| - 1]);
      Listed(lines[..|lines| - 1]) + if last.Some? && last.value != [] then [last.value] else []
  }

  function FirstOccurrences(all: seq<string>): seq<string> {
    if all == [] then []
    else
      var front, last := FirstOccurrences(all[..|all| - 1]), all[|all| - 1];
      if last in front then front else front + [last]
  }

  function FirstAt(all: seq<string>, x: string): (at: nat)
    requires x in all
    ensures at < |all| && all[at] == x && forall i :: 0 <= i < at ==> all[i] != x
  {
    if all[0] == x then 0 else FirstAt(all[1..], x) + 1
  }

  /** Nothing is lost, nothing is repeated, and order is that of first mention. */
  lemma {:induction false} FirstOccurrencesAre(all: seq<string>)
    ensures forall x :: x in FirstOccurrences(all) <==> x in all
    ensures forall i, j :: 0 <= i < j < |FirstOccurrences(all)| ==>
              FirstAt(all, FirstOccurrences(all)[i]) < FirstAt(all, FirstOccurrences(all)[j])
  {
    if all != [] {
      var front, last := all[..|all| - 1], all[|all| - 1];
      assert all == front + [last];
      FirstOccurrencesAre(front);
      forall x | x in front
        ensures FirstAt(all, x) == FirstAt(front, x)
      {
        var a, b := FirstAt(all, x), FirstAt(front, x);
        assert all[b] == front[b] == x;
        assert a < |front| ==> front[a] == all[a];
      }
    }
  }

  /** The titles a page lists. */
  function Targets(wikitext: string): seq<string> {
    FirstOccurrences(Listed(Lines(StripComments(wikitext))))
  }

  lemma OneMoreLine(lines: seq<string>, i: nat)
    requires i < |lines|
    ensures var before, entry := FirstOccurrences(Listed(lines[..i])), ParseLine(lines[i]);
            FirstOccurrences(Listed(lines[..i + 1])) ==
              if entry.Some? && entry.value != [] && entry.value !in before then before + [entry.value] else before
  {
    assert lines[..i + 1][..i] == lines[..i];
    var listed, entry := Listed(lines[..i]), ParseLine(lines[i]);
    if entry.Some? && entry.value != [] {
      assert (listed + [entry.value])[..|listed|] == listed;
    } else {
      assert listed + [] == listed;
    }
  }

  method ParseOptoutPage(wikitext: string) returns (targets: seq<string>)
    ensures targets == Targets(wikitext)
  {
    targets := [];
    var seen: set<string> := {};
    var lines := Lines(StripComments(wikitext));
    for i := 0 to |lines|
      invariant targets == FirstOccurrences(Listed(lines[..i]))
      invariant forall x :: x in seen <==> x in targets
    {
      OneMoreLine(lines, i);
      var entry := ParseLine(lines[i]);
      if entry.Some? && entry.value != [] && entry.value !in seen {
        seen := seen + {entry.value};
        targets := targets + [entry.value];
      }
    }
    assert lines[..|lines|] == lines;
  }

  lemma {:induction false} ListedAreSpelled(lines: seq<string>)
    ensures forall title :: title in Listed(lines) ==>
              title != [] && forall i :: 0 <= i < |title| ==> title[i] != '|' && title[i] != '_'
  {
    if lines != [] {
      var n := |lines| - 1;
      ListedAreSpelled(lines[..n]);
      var last := ParseLine(lines[n]);
      if last.Some? {
        var link := Skip(Skip(Skip(lines[n], IsSpace), IsStar), IsSpace);
        var target := UpToStop(Skip(link[2..], IsSpace));
        CleaningShortens(target);
        UpToStopShortens(Skip(link[2..], IsSpace));
      }
    }
  }

  /** Titles go to MediaWiki joined by `|`; no page can smuggle one into a title. */
  lemma TargetsAreSpelled(wikitext: string)
    ensures forall title :: title in Targets(wikitext) ==>
              title != [] && forall i :: 0 <= i < |title| ==> title[i] != '|' && title[i] != '_'
  {
    ListedAreSpelled(Lines(StripComments(wikitext)));
    FirstOccurrencesAre(Listed(Lines(StripComments(wikitext))));
  }

  datatype Line = Entry(layout: Layout, title: string) | Other(text: string)

  function TextOf(line: Line): string {
    match line
    case Entry(layout, title) => EntryLine(layout, title)
    case Other(text) => text
  }

  /** A line of an editor's making: an entry, or anything that is no bulleted link. */
  predicate IsWritten(line: Line) {
    && IsLine(TextOf(line))
    && (line.Entry? ==> IsLayout(line.layout) && IsTitle(line.title))
    && (line.Other? ==> ParseLine(line.text).None? || ParseLine(line.text).value == [])
  }

  function TextsOf(lines: seq<Line>): seq<string> {
    seq(|lines|, i requires 0 <= i < |lines| => TextOf(lines[i]))
  }

  function TitlesOf(lines: seq<Line>): seq<string> {
    if lines == [] then []
    else TitlesOf(lines[..|lines| - 1]) + match lines[|lines| - 1] case Entry(_, title) => [title] case Other(_) => []
  }

  lemma {:induction false} ListedAreTitles(lines: seq<Line>)
    requires forall i :: 0 <= i < |lines| ==> IsWritten(lines[i])
    ensures Listed(TextsOf(lines)) == TitlesOf(lines)
  {
    if lines != [] {
      var n := |lines| - 1;
      assert TextsOf(lines)[..n] == TextsOf(lines[..n]);
      ListedAreTitles(lines[..n]);
      if lines[n].Entry? {
        EntryLineReadsBack(lines[n].layout, lines[n].title);
      }
    }
  }

  /**
   * The round trip: a page whose visible text is made of entries and other lines, with
   * comments anywhere in it, lists the titles of its entries, each where first mentioned.
   */
  lemma PageReadsBack(source: Source, lines: seq<Line>)
    requires WellFormed(source) && lines != [] && forall i :: 0 <= i < |lines| ==> IsWritten(lines[i])
    requires Visible(source) == Joined(TextsOf(lines))
    ensures Targets(Written(source)) == FirstOccurrences(TitlesOf(lines))
  {
    StripLeavesTheVisible(source);
    assert forall i :: 0 <= i < |lines| ==> IsLine(TextsOf(lines)[i]);
    LinesOfJoined(TextsOf(lines));
    ListedAreTitles(lines);
  }
}
