/** The small Markdown reader of scripts/generate-brief-pdf.js: the text is
    cut into lines, each line is a heading (`#` to `###`), a list item
    (`-` or `•`), a rule (`---`), a blank line or plain text, and runs of
    plain lines are joined with spaces into one paragraph. */
module Markdown {
  import opened Seqs
  import opened Text

  /** What JavaScript's `.` refuses to match. */
  predicate IsLineTerminator(c: char)
  {
    c == '\n' || c == '\r' || c == '\U{2028}' || c == '\U{2029}'
  }

  predicate NoTerminator(s: string)
  {
    forall k :: 0 <= k < |s| ==> !IsLineTerminator(s[k])
  }

  /** No whitespace at either end: what `trim` leaves. */
  predicate Trimmed(s: string)
  {
    s == [] || (!IsSpace(s[0]) && !IsSpace(s[|s| - 1]))
  }

  function DropCR(s: string): string
  {
    if s != [] && s[|s| - 1] == '\r' then s[..|s| - 1] else s
  }

  /** `md.split(/\r?\n/)`: cut at every line feed, and drop one carriage
      return in front of each cut. */
  function SplitLines(md: string): (lines: seq<string>)
    ensures |lines| == |Split(md, '\n')|
    ensures forall i :: 0 <= i < |lines| ==> '\n' !in lines[i]
  {
    DropCRs(Split(md, '\n'))
  }

  /** Every piece but the last loses one carriage return at its end. */
  function DropCRs(pieces: seq<string>): (r: seq<string>)
    ensures |r| == |pieces|
    ensures forall i :: 0 <= i < |pieces| - 1 ==> r[i] == DropCR(pieces[i])
    ensures |pieces| >= 1 ==> r[|pieces| - 1] == pieces[|pieces| - 1]
    ensures forall i :: 0 <= i < |r| ==> ('\n' in r[i] ==> '\n' in pieces[i])
  {
    seq(|pieces|, i requires 0 <= i < |pieces| =>
      if i < |pieces| - 1 then DropCR(pieces[i]) else pieces[i])
  }

  /** One line more than there are line feeds. */
  lemma SplitLinesCount(md: string)
    ensures |SplitLines(md)| == 1 + multiset(md)['\n']
  {
    SplitCount(md, '\n');
  }

  function Repeat(c: char, n: nat): (r: string)
    ensures |r| == n && forall k :: 0 <= k < n ==> r[k] == c
  {
    if n == 0 then [] else [c] + Repeat(c, n - 1)
  }

  /** How many `#` the line starts with. */
  function LeadingHashes(s: string): (n: nat)
    ensures n <= |s| && (forall k :: 0 <= k < n ==> s[k] == '#')
    ensures n < |s| ==> s[n] != '#'
  {
    if s != [] && s[0] == '#' then 1 + LeadingHashes(s[1..]) else 0
  }

  /** `line` matches `^(#{1,3})\s+(.*)$`: one to three `#`, whitespace, and
      after that whitespace no line terminator. */
  predicate IsHeading(line: string)
  {
    var n := LeadingHashes(line);
    1 <= n <= 3 && n < |line| && IsSpace(line[n]) && NoTerminator(TrimStart(line[n..]))
  }

  /** `line` matches `^\s*[-•]\s+(.*)$`. */
  predicate IsItem(line: string)
  {
    var p := LeadingSpaces(line);
    p + 1 < |line| && (line[p] == '-' || line[p] == '•') && IsSpace(line[p + 1]) &&
    NoTerminator(TrimStart(line[p + 1..]))
  }

  datatype LineKind =
    | HeadingLine(level: nat, text: string)
    | ItemLine(text: string)
    | RuleLine
    | BlankLine
    | PlainLine(text: string)

  /** The tests the loop body makes, in its order. */
  function Classify(line: string): LineKind
  {
    if IsHeading(line) then HeadingLine(LeadingHashes(line), TrimText(line[LeadingHashes(line)..]))
    else if IsItem(line) then ItemLine(TrimText(line[LeadingSpaces(line) + 1..]))
    else if Trim(line) == "---" then RuleLine
    else if Trim(line) == [] then BlankLine
    else PlainLine(Trim(line))
  }

  /** A heading line starts with its level's number of `#`. */
  lemma HeadingHashes(line: string)
    requires IsHeading(line)
    ensures var n := LeadingHashes(line); 1 <= n <= 3 && IsPrefix(Repeat('#', n), line)
  {
    var n := LeadingHashes(line);
    assert line[..n] == Repeat('#', n);
  }

  /** What each kind of line guarantees about its text. */
  lemma ClassifyShape(line: string)
    ensures var k := Classify(line);
      (k.HeadingLine? ==> 1 <= k.level <= 3 && IsPrefix(Repeat('#', k.level), line)) &&
      (k.HeadingLine? ==> k.level == LeadingHashes(line)) &&
      (LeadingHashes(line) >= 4 ==> !k.HeadingLine?) &&
      (k.HeadingLine? || k.ItemLine? ==> Trimmed(k.text) && NoTerminator(k.text)) &&
      (k.RuleLine? ==> Trim(line) == "---") &&
      (k.BlankLine? ==> AllSpaces(line)) &&
      (k.PlainLine? ==> k.text == Trim(line) && Trimmed(k.text) && k.text != [] && k.text != "---")
  {
    if IsHeading(line) {
      HeadingHashes(line);
    }
  }

  /** The text a capture keeps: the part after the whitespace, trimmed. */
  function TrimText(s: string): (r: string)
    requires NoTerminator(TrimStart(s))
    ensures r == Trim(s) && Trimmed(r) && NoTerminator(r)
  {
    var t := TrimStart(s);
    assert Trim(s) == t[..|t| - TrailingSpaces(t)];
    Trim(s)
  }

  /** How each line of a list reads. */
  function Kinds(ls: seq<string>): (r: seq<LineKind>)
    ensures |r| == |ls| && forall i :: 0 <= i < |ls| ==> r[i] == Classify(ls[i])
  {
    seq(|ls|, i requires 0 <= i < |ls| => Classify(ls[i]))
  }

  datatype Block = H(level: nat, text: string) | Li(text: string) | Hr | P(text: string)

  /** The block a heading, item or rule line becomes on its own. */
  function LineBlocks(k: LineKind): seq<Block>
  {
    match k
    case HeadingLine(n, t) => [H(n, t)]
    case ItemLine(t) => [Li(t)]
    case RuleLine => [Hr]
    case BlankLine => []
    case PlainLine(_) => []
  }

  /** The texts of a run of lines. */
  function Texts(ks: seq<LineKind>): (r: seq<string>)
    ensures |r| == |ks| && forall i :: 0 <= i < |ks| ==> r[i] == LineText(ks[i])
  {
    seq(|ks|, i requires 0 <= i < |ks| => LineText(ks[i]))
  }

  function LineText(k: LineKind): string
  {
    if k.PlainLine? then k.text else ""
  }

  /** The paragraph a list of pending plain-line texts becomes: none when
      nothing is pending, otherwise one, its lines joined by spaces. */
  function Paragraph(pending: seq<string>): (r: seq<Block>)
    ensures |r| <= 1 && (r == [] <==> pending == [])
  {
    if pending == [] then [] else [P(Join(pending, " "))]
  }

  /** The blocks the lines `ks` read as, when the texts `pending` of earlier
      plain lines are still waiting to become a paragraph. */
  function Read(ks: seq<LineKind>, pending: seq<string>): seq<Block>
    decreases |ks|
  {
    if ks == [] then Paragraph(pending)
    else if ks[0].PlainLine? then Read(ks[1..], pending + [ks[0].text])
    else Paragraph(pending) + LineBlocks(ks[0]) + Read(ks[1..], [])
  }

  /** The blocks a whole document's lines read as. */
  function Render(ks: seq<LineKind>): seq<Block>
  {
    Read(ks, [])
  }

  /** flushParagraph: a pending paragraph becomes one block. */
  function Flush(blocks: seq<Block>, paragraph: seq<string>): seq<Block>
  {
    blocks + Paragraph(paragraph)
  }

  /** simpleMarkdownToBlocks. Classifying a line depends on that line
      alone, so the lines are classified first and the loop of the source
      runs over their kinds. */
  method MarkdownToBlocks(md: string) returns (blocks: seq<Block>)
    ensures blocks == Render(Kinds(SplitLines(md)))
  {
    var lines := SplitLines(md);
    blocks := Assemble(Kinds(lines));
  }

  /** The loop of simpleMarkdownToBlocks: one pass with a pending paragraph
      that every non-plain line and the end of the text flush. */
  method Assemble(ks: seq<LineKind>) returns (blocks: seq<Block>)
    ensures blocks == Render(ks)
  {
    blocks := [];
    var paragraph: seq<string> := [];
    var i := 0;
    while i < |ks|
      invariant 0 <= i <= |ks|
      invariant blocks + Read(ks[i..], paragraph) == Render(ks)
    {
      var kind := ks[i];
      assert ks[i..][0] == kind && ks[i..][1..] == ks[i + 1..];
      if kind.PlainLine? {
        assert Read(ks[i..], paragraph) == Read(ks[i + 1..], paragraph + [kind.text]);
        paragraph := paragraph + [kind.text];
      } else {
        assert Read(ks[i..], paragraph) == Paragraph(paragraph) + LineBlocks(kind) + Read(ks[i + 1..], []);
        AppendAssoc(blocks, Paragraph(paragraph) + LineBlocks(kind), Read(ks[i + 1..], []));
        AppendAssoc(blocks, Paragraph(paragraph), LineBlocks(kind));
        blocks := Flush(blocks, paragraph);
        blocks := blocks + LineBlocks(kind);
        paragraph := [];
      }
      i := i + 1;
    }
    assert ks[i..] == [];
    blocks := Flush(blocks, paragraph);
  }

  /** How many plain lines `ks` starts with. */
  function PlainRun(ks: seq<LineKind>): (n: nat)
    ensures n <= |ks| && (forall i :: 0 <= i < n ==> ks[i].PlainLine?)
    ensures n < |ks| ==> !ks[n].PlainLine?
  {
    if ks != [] && ks[0].PlainLine? then 1 + PlainRun(ks[1..]) else 0
  }

  /** Plain lines only add their texts to the pending paragraph. */
  lemma {:induction false} ReadPlain(run: seq<LineKind>, rest: seq<LineKind>, pending: seq<string>)
    requires forall i :: 0 <= i < |run| ==> run[i].PlainLine?
    ensures Read(run + rest, pending) == Read(rest, pending + Texts(run))
  {
    if run == [] {
      assert run + rest == rest && pending + Texts(run) == pending;
    } else {
      var x := run[0];
      assert (run + rest)[0] == x && (run + rest)[1..] == run[1..] + rest;
      ReadPlain(run[1..], rest, pending + [x.text]);
      assert Texts(run) == [x.text] + Texts(run[1..]);
      AppendAssoc(pending, [x.text], Texts(run[1..]));
    }
  }

  /** A leading run of plain lines reads as one paragraph. */
  lemma RenderParagraph(ks: seq<LineKind>)
    requires PlainRun(ks) > 0
    ensures var n := PlainRun(ks); Render(ks) == [P(Join(Texts(ks[..n]), " "))] + Render(ks[n..])
  {
    var n := PlainRun(ks);
    var run, rest := ks[..n], ks[n..];
    assert ks == run + rest;
    ReadPlain(run, rest, []);
    assert [] + Texts(run) == Texts(run);
    if rest != [] {
      assert rest[0] == ks[n];
      AppendAssoc(Paragraph(Texts(run)), LineBlocks(rest[0]), Read(rest[1..], []));
    }
  }

  /** The shape of the document: a maximal run of plain lines is one
      paragraph of their texts joined by spaces, a heading, item or rule line
      is one block, a blank line is none, and the rest reads on its own. */
  lemma RenderShape(ks: seq<LineKind>)
    requires ks != []
    ensures var n := PlainRun(ks);
      Render(ks) ==
        if n == 0 then LineBlocks(ks[0]) + Render(ks[1..])
        else [P(Join(Texts(ks[..n]), " "))] + Render(ks[n..])
  {
    if PlainRun(ks) > 0 {
      RenderParagraph(ks);
    }
  }

  /** Reading two pieces of a document separately gives the same blocks,
      provided the first piece does not end inside a paragraph. */
  lemma {:induction false} ReadAppend(a: seq<LineKind>, b: seq<LineKind>, pending: seq<string>)
    requires a != [] && !a[|a| - 1].PlainLine?
    ensures Read(a + b, pending) == Read(a, pending) + Render(b)
  {
    var x := a[0];
    assert (a + b)[0] == x && (a + b)[1..] == a[1..] + b;
    if |a| == 1 {
      assert a[1..] == [] && a[1..] + b == b;
      assert Read(a[1..], []) == [];
    } else if x.PlainLine? {
      ReadAppend(a[1..], b, pending + [x.text]);
    } else {
      ReadAppend(a[1..], b, []);
      var head := Paragraph(pending) + LineBlocks(x);
      AppendAssoc(head, Read(a[1..], []), Render(b));
    }
  }

  lemma RenderAppend(a: seq<LineKind>, b: seq<LineKind>)
    requires a == [] || !a[|a| - 1].PlainLine?
    ensures Render(a + b) == Render(a) + Render(b)
  {
    if a == [] {
      assert a + b == b;
    } else {
      ReadAppend(a, b, []);
    }
  }

  /** The blocks other than paragraphs, in order, one per heading, item and
      rule line. */
  function Structural(ks: seq<LineKind>): seq<Block>
  {
    if ks == [] then [] else LineBlocks(ks[0]) + Structural(ks[1..])
  }

  predicate NotParagraph(b: Block) { !b.P? }

  /** Headings, items and rules come out exactly as their lines come in. */
  lemma {:induction false} ReadStructural(ks: seq<LineKind>, pending: seq<string>)
    ensures Filter(Read(ks, pending), NotParagraph) == Structural(ks)
  {
    var par := Paragraph(pending);
    assert Filter(par, NotParagraph) == [] by {
      if par != [] { assert par == [par[0]] && par[0].P?; assert par[1..] == []; }
    }
    if ks != [] {
      var x := ks[0];
      if x.PlainLine? {
        ReadStructural(ks[1..], pending + [x.text]);
      } else {
        ReadStructural(ks[1..], []);
        FilterAppend(par + LineBlocks(x), Read(ks[1..], []), NotParagraph);
        FilterAppend(par, LineBlocks(x), NotParagraph);
        var lb := LineBlocks(x);
        assert Filter(lb, NotParagraph) == lb by {
          if lb != [] { assert lb[1..] == []; }
        }
      }
    }
  }

  lemma RenderStructural(ks: seq<LineKind>)
    ensures Filter(Render(ks), NotParagraph) == Structural(ks)
  {
    ReadStructural(ks, []);
  }

  /** The texts of the paragraph blocks, in order. */
  function ParagraphTexts(bs: seq<Block>): seq<string>
  {
    if bs == [] then [] else (if bs[0].P? then [bs[0].text] else []) + ParagraphTexts(bs[1..])
  }

  lemma {:induction false} ParagraphTextsAppend(a: seq<Block>, b: seq<Block>)
    ensures ParagraphTexts(a + b) == ParagraphTexts(a) + ParagraphTexts(b)
  {
    if a == [] {
      assert a + b == b;
    } else {
      assert (a + b)[0] == a[0] && (a + b)[1..] == a[1..] + b;
      ParagraphTextsAppend(a[1..], b);
      AppendAssoc(if a[0].P? then [a[0].text] else [], ParagraphTexts(a[1..]), ParagraphTexts(b));
    }
  }

  /** The texts of the plain lines, in order. */
  function PlainTexts(ks: seq<LineKind>): seq<string>
  {
    if ks == [] then [] else (if ks[0].PlainLine? then [ks[0].text] else []) + PlainTexts(ks[1..])
  }

  /** Joining `x` in front of a joined list. */
  lemma JoinCons(x: seq<string>, r: seq<string>)
    requires x != []
    ensures Join(x + r, " ") == if r == [] then Join(x, " ") else Join(x, " ") + " " + Join(r, " ")
  {
    if r == [] {
      assert x + r == x;
    } else {
      JoinAppend(x, r, " ");
    }
  }

  /** No word of a paragraph is lost, added or moved: the paragraphs, joined
      by spaces, spell the plain lines joined by spaces. */
  lemma {:induction false} ReadWords(ks: seq<LineKind>, pending: seq<string>)
    ensures ParagraphTexts(Read(ks, pending)) == [] <==> pending + PlainTexts(ks) == []
    ensures Join(ParagraphTexts(Read(ks, pending)), " ") == Join(pending + PlainTexts(ks), " ")
  {
    if ks == [] {
      assert pending + PlainTexts(ks) == pending;
      if pending != [] {
        assert ParagraphTexts([P(Join(pending, " "))]) == [Join(pending, " ")];
      }
    } else {
      var x := ks[0];
      if x.PlainLine? {
        ReadWords(ks[1..], pending + [x.text]);
        AppendAssoc(pending, [x.text], PlainTexts(ks[1..]));
      } else {
        var rest := Read(ks[1..], []);
        ReadWords(ks[1..], []);
        assert [] + PlainTexts(ks[1..]) == PlainTexts(ks[1..]);
        assert PlainTexts(ks) == PlainTexts(ks[1..]);
        var par, lb := Paragraph(pending), LineBlocks(x);
        ParagraphTextsAppend(par + lb, rest);
        ParagraphTextsAppend(par, lb);
        assert ParagraphTexts(lb) == [] by {
          if lb != [] { assert lb[1..] == []; }
        }
        assert ParagraphTexts(par) == if pending == [] then [] else [Join(pending, " ")] by {
          if pending != [] { assert par[1..] == []; }
        }
        JoinFlush(pending, ParagraphTexts(rest), PlainTexts(ks[1..]));
      }
    }
  }

  /** Flushing a pending paragraph in front of later paragraphs keeps the words. */
  lemma JoinFlush(pending: seq<string>, pt: seq<string>, later: seq<string>)
    requires (pt == [] <==> later == []) && Join(pt, " ") == Join(later, " ")
    ensures var q := (if pending == [] then [] else [Join(pending, " ")]) + pt;
      (q == [] <==> pending + later == []) && Join(q, " ") == Join(pending + later, " ")
  {
    if pending == [] {
      assert pending + later == later;
      assert [] + pt == pt;
    } else {
      JoinCons([Join(pending, " ")], pt);
      JoinCons(pending, later);
    }
  }

  lemma RenderWords(ks: seq<LineKind>)
    ensures Join(ParagraphTexts(Render(ks)), " ") == Join(PlainTexts(ks), " ")
  {
    ReadWords(ks, []);
    assert [] + PlainTexts(ks) == PlainTexts(ks);
  }

  /** Each line gives at most one block. */
  lemma {:induction false} ReadCount(ks: seq<LineKind>, pending: seq<string>)
    ensures |Read(ks, pending)| <= |ks| + (if pending == [] then 0 else 1)
  {
    if ks != [] {
      ReadCount(ks[1..], if ks[0].PlainLine? then pending + [ks[0].text] else []);
    }
  }

  lemma RenderCount(ks: seq<LineKind>)
    ensures |Render(ks)| <= |ks|
  {
    ReadCount(ks, []);
  }

  /** Cutting lines joined by line feeds gives them back, when no line holds
      a line feed and none but the last ends in a carriage return. */
  lemma SplitLinesJoin(ls: seq<string>)
    requires |ls| >= 1 && forall i :: 0 <= i < |ls| ==> '\n' !in ls[i]
    requires forall i :: 0 <= i < |ls| - 1 ==> DropCR(ls[i]) == ls[i]
    ensures SplitLines(Join(ls, "\n")) == ls
  {
    SplitJoin(ls, '\n');
  }

  /** A line and the same line ended by "\r\n" instead of "\n". */
  function WithCR(ls: seq<string>): (r: seq<string>)
    ensures |r| == |ls|
  {
    if |ls| <= 1 then ls else [ls[0] + "\r"] + WithCR(ls[1..])
  }

  lemma {:induction false} JoinWithCR(ls: seq<string>)
    ensures Join(ls, "\r\n") == Join(WithCR(ls), "\n")
  {
    if |ls| > 1 {
      JoinWithCR(ls[1..]);
      assert WithCR(ls)[1..] == WithCR(ls[1..]);
      AppendAssoc(ls[0], "\r", "\n" + Join(WithCR(ls[1..]), "\n"));
    }
  }

  lemma {:induction false} WithCRShape(ls: seq<string>)
    ensures forall i :: 0 <= i < |ls| - 1 ==> WithCR(ls)[i] == ls[i] + "\r"
    ensures |ls| >= 1 ==> WithCR(ls)[|ls| - 1] == ls[|ls| - 1]
  {
    if |ls| > 1 {
      WithCRShape(ls[1..]);
    }
  }

  /** Windows line ends read like Unix ones: "\r\n" between the lines gives
      the same lines as "\n". */
  lemma SplitLinesCRLF(ls: seq<string>)
    requires |ls| >= 1 && forall i :: 0 <= i < |ls| ==> '\n' !in ls[i]
    ensures SplitLines(Join(ls, "\r\n")) == ls
  {
    var w := WithCR(ls);
    JoinWithCR(ls);
    WithCRNoNewline(ls);
    SplitJoin(w, '\n');
    assert Split(Join(ls, "\r\n"), '\n') == w;
    DropCRsWithCR(ls);
  }

  lemma WithCRNoNewline(ls: seq<string>)
    requires forall i :: 0 <= i < |ls| ==> '\n' !in ls[i]
    ensures |WithCR(ls)| >= 1 <==> |ls| >= 1
    ensures forall i :: 0 <= i < |ls| ==> '\n' !in WithCR(ls)[i]
  {
    WithCRShape(ls);
    forall i | 0 <= i < |ls| ensures '\n' !in WithCR(ls)[i] {
      if i < |ls| - 1 {
        var t := ls[i] + "\r";
        forall k | 0 <= k < |t| ensures t[k] != '\n' {
          if k < |ls[i]| { assert t[k] == ls[i][k]; }
        }
      }
    }
  }

  lemma DropCRsWithCR(ls: seq<string>)
    ensures DropCRs(WithCR(ls)) == ls
  {
    WithCRShape(ls);
    var r := DropCRs(WithCR(ls));
    forall i | 0 <= i < |ls| ensures r[i] == ls[i] {
      if i < |ls| - 1 {
        assert DropCR(ls[i] + "\r") == ls[i];
      }
    }
  }

  /** Kinds of a concatenation. */
  lemma KindsAppend(a: seq<string>, b: seq<string>)
    ensures Kinds(a + b) == Kinds(a) + Kinds(b)
  {
  }

  /** The Markdown line each block is written as; a paragraph is followed by
      a blank line so that it ends there. */
  function EmitBlock(b: Block): seq<string>
  {
    match b
    case H(n, t) => [Repeat('#', n) + " " + t]
    case Li(t) => ["- " + t]
    case Hr => ["---"]
    case P(t) => [t, ""]
  }

  function Emit(bs: seq<Block>): seq<string>
  {
    if bs == [] then [] else EmitBlock(bs[0]) + Emit(bs[1..])
  }

  /** A block that can be written as Markdown and read back: a heading of
      level 1 to 3, and every text already trimmed and on one line; a
      paragraph text that reads as plain text. */
  predicate Emittable(b: Block)
  {
    match b
    case H(n, t) => 1 <= n <= 3 && Trimmed(t) && NoTerminator(t)
    case Li(t) => Trimmed(t) && NoTerminator(t)
    case Hr => true
    case P(t) => Classify(t) == PlainLine(t) && '\n' !in t
  }

  lemma TrimAfterSpace(t: string)
    requires Trimmed(t)
    ensures TrimStart(" " + t) == t && Trim(" " + t) == t
  {
    var s := " " + t;
    assert s[1..] == t;
    assert LeadingSpaces(s) == 1 by {
      assert LeadingSpaces(s) == 1 + LeadingSpaces(t);
    }
    assert TrailingSpaces(t) == 0;
  }

  lemma ClassifyHeading(n: nat, t: string)
    requires 1 <= n <= 3 && Trimmed(t) && NoTerminator(t)
    ensures Classify(Repeat('#', n) + " " + t) == HeadingLine(n, t)
  {
    var line := Repeat('#', n) + (" " + t);
    assert line == Repeat('#', n) + " " + t;
    assert line[n..] == " " + t;
    LeadingHashesRepeat(n, " " + t);
    TrimAfterSpace(t);
  }

  lemma {:induction false} LeadingHashesRepeat(n: nat, rest: string)
    requires rest == [] || rest[0] != '#'
    ensures LeadingHashes(Repeat('#', n) + rest) == n
  {
    if n > 0 {
      var s := Repeat('#', n) + rest;
      assert s[0] == '#';
      assert s[1..] == Repeat('#', n - 1) + rest;
      LeadingHashesRepeat(n - 1, rest);
    } else {
      assert Repeat('#', n) + rest == rest;
    }
  }

  lemma RenderSingle(k: LineKind)
    requires !k.PlainLine?
    ensures Render([k]) == LineBlocks(k)
  {
    assert [k][1..] == [];
    assert Paragraph([]) == [] && Read([], []) == [];
    assert [] + LineBlocks(k) + [] == LineBlocks(k);
  }

  /** Any line of the heading form: one to three `#`, whitespace, and
      after that whitespace no line terminator. */
  lemma ClassifyHeadingForm(line: string, n: nat)
    requires 1 <= n < |line| && n <= 3 && AllHashes(line[..n]) && IsSpace(line[n])
    requires NoTerminator(TrimStart(line[n..]))
    ensures Classify(line) == HeadingLine(n, TrimText(line[n..]))
  {
    var h := LeadingHashes(line);
    assert h == n;
  }

  predicate AllHashes(s: string)
  {
    forall k :: 0 <= k < |s| ==> s[k] == '#'
  }

  /** Any line of the list-item form: leading whitespace, a `-` or `•`
      marker, whitespace, and after that no line terminator. */
  lemma ClassifyItem(line: string, p: nat)
    requires p + 1 < |line| && AllSpaces(line[..p]) && (line[p] == '-' || line[p] == '•')
    requires IsSpace(line[p + 1]) && NoTerminator(TrimStart(line[p + 1..]))
    ensures Classify(line) == ItemLine(TrimText(line[p + 1..]))
  {
    assert LeadingSpaces(line) == p;
    assert LeadingHashes(line) == 0;
  }

  /** One block written out reads back as that block. */
  lemma EmitBlockRoundTrip(b: Block)
    requires Emittable(b)
    ensures var ks := Kinds(EmitBlock(b));
      ks != [] && !ks[|ks| - 1].PlainLine? && Render(ks) == [b]
  {
    match b
    case H(n, t) => EmitHeadingRoundTrip(n, t);
    case Li(t) => EmitItemRoundTrip(t);
    case Hr => EmitRuleRoundTrip();
    case P(t) => EmitParagraphRoundTrip(t);
  }

  lemma EmitHeadingRoundTrip(n: nat, t: string)
    requires 1 <= n <= 3 && Trimmed(t) && NoTerminator(t)
    ensures Kinds(EmitBlock(H(n, t))) == [HeadingLine(n, t)] && Render([HeadingLine(n, t)]) == [H(n, t)]
  {
    ClassifyHeading(n, t);
    RenderSingle(HeadingLine(n, t));
  }

  lemma EmitItemRoundTrip(t: string)
    requires Trimmed(t) && NoTerminator(t)
    ensures Kinds(EmitBlock(Li(t))) == [ItemLine(t)] && Render([ItemLine(t)]) == [Li(t)]
  {
    var line := "- " + t;
    assert line[..0] == [] && line[1..] == " " + t;
    TrimAfterSpace(t);
    ClassifyItem(line, 0);
    RenderSingle(ItemLine(t));
  }

  lemma EmitRuleRoundTrip()
    ensures Kinds(EmitBlock(Hr)) == [RuleLine] && Render([RuleLine]) == [Hr]
  {
    assert LeadingHashes("---") == 0 && LeadingSpaces("---") == 0;
    assert Trim("---") == "---";
    RenderSingle(RuleLine);
  }

  lemma EmitParagraphRoundTrip(t: string)
    requires Classify(t) == PlainLine(t)
    ensures Kinds(EmitBlock(P(t))) == [PlainLine(t), BlankLine]
    ensures Render([PlainLine(t), BlankLine]) == [P(t)]
  {
    assert Classify("") == BlankLine;
    var ks := [PlainLine(t), BlankLine];
    assert ks[1..] == [BlankLine] && ks[1..][1..] == [];
    assert Read(ks, []) == Read([BlankLine], [t]);
    assert Read([BlankLine], [t]) == Paragraph([t]) + [] + Read([], []);
    assert Join([t], " ") == t;
  }

  /** Writing blocks as Markdown and reading the lines back gives the blocks. */
  lemma {:induction false} EmitRoundTrip(bs: seq<Block>)
    requires forall i :: 0 <= i < |bs| ==> Emittable(bs[i])
    ensures Render(Kinds(Emit(bs))) == bs
  {
    if bs != [] {
      var first := EmitBlock(bs[0]);
      EmitBlockRoundTrip(bs[0]);
      EmitRoundTrip(bs[1..]);
      KindsAppend(first, Emit(bs[1..]));
      RenderAppend(Kinds(first), Kinds(Emit(bs[1..])));
      assert bs == [bs[0]] + bs[1..];
    }
  }

  /** Every line Emit writes is one line: no line feed inside, and no
      carriage return at its end for the cut to swallow. */
  lemma {:induction false} EmitLinesClean(bs: seq<Block>)
    requires forall i :: 0 <= i < |bs| ==> Emittable(bs[i])
    ensures forall i :: 0 <= i < |Emit(bs)| ==> '\n' !in Emit(bs)[i] && DropCR(Emit(bs)[i]) == Emit(bs)[i]
  {
    if bs != [] {
      EmitLinesClean(bs[1..]);
      var first := EmitBlock(bs[0]);
      assert forall i :: 0 <= i < |first| ==> '\n' !in first[i] && DropCR(first[i]) == first[i] by {
        match bs[0]
        case H(n, t) =>
          var l := Repeat('#', n) + " " + t;
          forall k | 0 <= k < |l| ensures l[k] != '\n' {
            if k > n { assert l[k] == t[k - n - 1]; }
          }
        case Li(t) =>
          var l := "- " + t;
          forall k | 0 <= k < |l| ensures l[k] != '\n' {
            if k > 1 { assert l[k] == t[k - 2]; }
          }
        case Hr =>
        case P(t) =>
          ClassifyShape(t);
      }
    }
  }

  /** Writing blocks as a Markdown text, lines joined by line feeds, and
      parsing that text gives the blocks back. */
  lemma DocumentRoundTrip(bs: seq<Block>)
    requires forall i :: 0 <= i < |bs| ==> Emittable(bs[i])
    ensures Render(Kinds(SplitLines(Join(Emit(bs), "\n")))) == bs
  {
    if bs == [] {
      EmptyDocument();
    } else {
      var ls := Emit(bs);
      assert ls == EmitBlock(bs[0]) + Emit(bs[1..]);
      EmitRoundTrip(bs);
      EmitLinesClean(bs);
      SplitLinesJoin(ls);
    }
  }

  /** An empty text is one blank line and no block. */
  lemma EmptyDocument()
    ensures Render(Kinds(SplitLines(Join([], "\n")))) == []
  {
    assert SplitLines("") == [""];
    assert Classify("") == BlankLine;
    assert Kinds([""]) == [BlankLine];
    RenderSingle(BlankLine);
  }

  /** Pending texts that are not empty give a paragraph that is not empty. */
  lemma JoinNonEmpty(p: seq<string>)
    requires p != [] && p[0] != []
    ensures Join(p, " ") != []
  {
    if |p| > 1 {
      assert Join(p, " ") == p[0] + " " + Join(p[1..], " ");
    }
  }

  /** No paragraph is empty when no plain line is. */
  lemma {:induction false} ReadNoEmptyParagraph(ks: seq<LineKind>, pending: seq<string>)
    requires forall i :: 0 <= i < |ks| ==> ks[i].PlainLine? ==> ks[i].text != []
    requires pending == [] || pending[0] != []
    ensures forall i :: 0 <= i < |Read(ks, pending)| ==> Read(ks, pending)[i].P? ==> Read(ks, pending)[i].text != []
  {
    if pending != [] { JoinNonEmpty(pending); }
    if ks != [] {
      var x := ks[0];
      if x.PlainLine? {
        ReadNoEmptyParagraph(ks[1..], pending + [x.text]);
      } else {
        ReadNoEmptyParagraph(ks[1..], []);
      }
    }
  }

  /** Read from real lines, no paragraph block has an empty text. */
  lemma RenderNoEmptyParagraph(lines: seq<string>)
    ensures var bs := Render(Kinds(lines));
      forall i :: 0 <= i < |bs| ==> bs[i].P? ==> bs[i].text != []
  {
    var ks := Kinds(lines);
    forall i | 0 <= i < |ks| && ks[i].PlainLine? ensures ks[i].text != [] {
      ClassifyShape(lines[i]);
    }
    ReadNoEmptyParagraph(ks, []);
  }
}
