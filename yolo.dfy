/** The YOLO annotation text the server writes (main.py:28-34) and reads
    back (main.py:140-162): one line per box, `class x y w h` separated by
    single spaces. How a number is written as text and read back is not
    part of the model; it is given as a `NumberText`. */
module YoloFormat {
  import opened Types
  import opened Strings

  /** Writing numbers (`str` of an int or a float) and reading them back
      (`int(...)`, `float(...)`, None when the text is not a number). */
  datatype NumberText = NumberText(
    showInt: int -> string,
    showReal: real -> string,
    readInt: string -> Option<int>,
    readReal: string -> Option<real>)

  /** The five fields of a box as written, in order. */
  function Fields(nt: NumberText, b: Box): seq<string>
  {
    [nt.showInt(b.cls), nt.showReal(b.x), nt.showReal(b.y), nt.showReal(b.w), nt.showReal(b.h)]
  }

  /** `" ".join(words)`. */
  function JoinWords(words: seq<string>): string
    decreases |words|
  {
    if words == [] then []
    else if |words| == 1 then words[0]
    else words[0] + " " + JoinWords(words[1..])
  }

  /** One line of the file without its line break: the fields separated
      by single spaces. */
  function LineBody(nt: NumberText, b: Box): string
  {
    JoinWords(Fields(nt, b))
  }

  /** `f"{a['class']} {a['x']} {a['y']} {a['w']} {a['h']}\n"`. */
  function LineText(nt: NumberText, b: Box): string
  {
    LineBody(nt, b) + "\n"
  }

  /** The whole file: the lines of the boxes in list order. */
  function Serialize(nt: NumberText, anns: seq<Box>): string
    decreases |anns|
  {
    if anns == [] then [] else LineText(nt, anns[0]) + Serialize(nt, anns[1..])
  }

  /** Writing one more box appends exactly its line. */
  lemma {:induction false} SerializeAppend(nt: NumberText, anns: seq<Box>, b: Box)
    ensures Serialize(nt, anns + [b]) == Serialize(nt, anns) + LineText(nt, b)
    decreases |anns|
  {
    if anns == [] {
      assert [] + [b] == [b];
    } else {
      assert (anns + [b])[1..] == anns[1..] + [b];
      SerializeAppend(nt, anns[1..], b);
    }
  }

  /** `save_yolo_annotation`: the loop that writes one line per box; the
      text written to the file is returned. */
  method SaveYoloAnnotation(nt: NumberText, anns: seq<Box>) returns (text: string)
    ensures text == Serialize(nt, anns)
  {
    text := [];
    var i := 0;
    while i < |anns|
      invariant 0 <= i <= |anns|
      invariant text == Serialize(nt, anns[..i])
    {
      SerializeAppend(nt, anns[..i], anns[i]);
      assert anns[..i + 1] == anns[..i] + [anns[i]];
      text := text + LineText(nt, anns[i]);
      i := i + 1;
    }
    assert anns[..i] == anns;
  }

  // ---------------------------------------------------------------- lines

  /** Reading a text file with universal newlines: '\n' and '\r' each end
      a line ("\r\n" then gives one more, empty, line). */
  predicate IsBreak(c: char)
  {
    c == '\n' || c == '\r'
  }

  /** The index of the first line break, or |t| when there is none. */
  function LineEnd(t: string): (k: nat)
    ensures k <= |t|
    ensures forall i :: 0 <= i < k ==> !IsBreak(t[i])
    ensures k < |t| ==> IsBreak(t[k])
    decreases |t|
  {
    if t == [] || IsBreak(t[0]) then 0 else 1 + LineEnd(t[1..])
  }

  /** `for line in f`: the lines of a text, without their breaks; a final
      line without a break still counts, an empty text has no lines. */
  function Lines(t: string): seq<string>
    decreases |t|
  {
    if t == [] then []
    else
      var k := LineEnd(t);
      if k == |t| then [t] else [t[..k]] + Lines(t[k + 1..])
  }

  predicate NoBreak(s: string)
  {
    forall i :: 0 <= i < |s| ==> !IsBreak(s[i])
  }

  /** A line followed by a break, then the rest of the text, reads as that
      line followed by the rest's lines. */
  lemma LinesCons(line: string, rest: string)
    requires NoBreak(line)
    ensures Lines(line + "\n" + rest) == [line] + Lines(rest)
  {
    var t := line + "\n" + rest;
    var k := LineEnd(t);
    assert IsBreak(t[|line|]);
    assert forall i :: 0 <= i < |line| ==> t[i] == line[i];
    assert k == |line|;
    assert t[..k] == line;
    assert t[k + 1..] == rest;
  }

  // --------------------------------------------------------------- tokens

  predicate NoSpace(s: string)
  {
    forall i :: 0 <= i < |s| ==> !IsSpace(s[i])
  }

  /** The length of the run of non-space characters at the front. */
  function RunEnd(s: string): (k: nat)
    ensures k <= |s|
    ensures forall i :: 0 <= i < k ==> !IsSpace(s[i])
    ensures k < |s| ==> IsSpace(s[k])
    decreases |s|
  {
    if s == [] || IsSpace(s[0]) then 0 else 1 + RunEnd(s[1..])
  }

  /** `str.split()` with no argument: the maximal runs of non-space
      characters, in order; leading, trailing and repeated spaces give no
      empty tokens. Stripping the line first changes nothing. */
  function Tokens(s: string): seq<string>
    decreases |s|
  {
    if s == [] then []
    else if IsSpace(s[0]) then Tokens(s[1..])
    else
      var k := RunEnd(s);
      [s[..k]] + Tokens(s[k..])
  }

  /** Every token is non-empty and holds no space. */
  lemma {:induction false} TokensAreWords(s: string)
    ensures forall k :: 0 <= k < |Tokens(s)| ==> Tokens(s)[k] != [] && NoSpace(Tokens(s)[k])
    decreases |s|
  {
    if s != [] {
      if IsSpace(s[0]) {
        TokensAreWords(s[1..]);
      } else {
        var k := RunEnd(s);
        TokensAreWords(s[k..]);
        assert Tokens(s) == [s[..k]] + Tokens(s[k..]);
      }
    }
  }

  /** A word then a space then more text splits into that word and the
      tokens of the rest. */
  lemma TokensCons(w: string, rest: string)
    requires w != [] && NoSpace(w)
    ensures Tokens(w + " " + rest) == [w] + Tokens(rest)
  {
    var s := w + " " + rest;
    var k := RunEnd(s);
    assert IsSpace(s[|w|]);
    assert forall i :: 0 <= i < |w| ==> s[i] == w[i];
    assert k == |w|;
    assert s[..k] == w;
    assert s[k..] == " " + rest;
    assert (" " + rest)[1..] == rest;
  }

  /** A single word is its own only token. */
  lemma TokensOfWord(w: string)
    requires w != [] && NoSpace(w)
    ensures Tokens(w) == [w]
  {
    var k := RunEnd(w);
    assert w[..k] == w;
    assert w[k..] == [];
  }

  // -------------------------------------------------------------- parsing

  const ReadError: string := "failed to read annotation"

  /** One line of `api_load_annotation`: fewer than five tokens skip the
      line; otherwise the first five tokens are read as the class and the
      four coordinates, extra tokens are ignored, and any token that is not
      a number fails the whole load. */
  function ParseLine(nt: NumberText, line: string): Result<Option<Box>, string>
  {
    var parts := Tokens(line);
    if |parts| < 5 then Ok(None)
    else
      var cls := nt.readInt(parts[0]);
      var x := nt.readReal(parts[1]);
      var y := nt.readReal(parts[2]);
      var w := nt.readReal(parts[3]);
      var h := nt.readReal(parts[4]);
      if cls.None? || x.None? || y.None? || w.None? || h.None? then Err(ReadError)
      else Ok(Some(Box(x.value, y.value, w.value, h.value, cls.value)))
  }

  /** The boxes of a run of lines, or the error of the first line that
      fails. */
  function ParseLines(nt: NumberText, lines: seq<string>): Result<seq<Box>, string>
    decreases |lines|
  {
    if lines == [] then Ok([])
    else
      match ParseLine(nt, lines[0])
      case Err(e) => Err(e)
      case Ok(None) => ParseLines(nt, lines[1..])
      case Ok(Some(b)) => Prepend([b], ParseLines(nt, lines[1..]))
  }

  /** Boxes already read in front of the outcome of the rest. */
  function Prepend(done: seq<Box>, rest: Result<seq<Box>, string>): Result<seq<Box>, string>
  {
    match rest
    case Ok(bs) => Ok(done + bs)
    case Err(e) => Err(e)
  }

  /** The file's text as read, or None when there is no annotation file
      (main.py:149-150), in which case the load gives no boxes. */
  function ParseAnnotations(nt: NumberText, file: Option<string>): Result<seq<Box>, string>
  {
    match file
    case None => Ok([])
    case Some(text) => ParseLines(nt, Lines(text))
  }

  /** The loop of `api_load_annotation`, appending one box per kept line
      and stopping at the first line that fails. */
  method LoadAnnotations(nt: NumberText, file: Option<string>) returns (r: Result<seq<Box>, string>)
    ensures r == ParseAnnotations(nt, file)
  {
    if file.None? {
      return Ok([]);
    }
    var lines := Lines(file.value);
    var anns: seq<Box> := [];
    var i := 0;
    assert lines[0..] == lines;
    PrependNothing(ParseLines(nt, lines));
    while i < |lines|
      invariant 0 <= i <= |lines|
      invariant ParseLines(nt, lines) == Prepend(anns, ParseLines(nt, lines[i..]))
    {
      assert lines[i..][1..] == lines[i + 1..];
      var one := ParseLine(nt, lines[i]);
      if one.Err? {
        return Err(one.error);
      }
      if one.value.Some? {
        assert anns + ([one.value.value] + []) == anns + [one.value.value];
        PrependTwice(anns, [one.value.value], ParseLines(nt, lines[i + 1..]));
        anns := anns + [one.value.value];
      }
      i := i + 1;
    }
    assert anns + [] == anns;
    return Ok(anns);
  }

  lemma PrependNothing(r: Result<seq<Box>, string>)
    ensures Prepend([], r) == r
  {
    if r.Ok? {
      assert [] + r.value == r.value;
    }
  }

  lemma PrependTwice(a: seq<Box>, b: seq<Box>, r: Result<seq<Box>, string>)
    ensures Prepend(a, Prepend(b, r)) == Prepend(a + b, r)
  {
    if r.Ok? {
      assert a + (b + r.value) == (a + b) + r.value;
    }
  }

  // ---------------------------------------------------- reference reading

  /** The token lists of the lines the parser keeps: those with at least
      five tokens, in line order. */
  function KeptRows(lines: seq<string>): seq<seq<string>>
    decreases |lines|
  {
    if lines == [] then []
    else
      var parts := Tokens(lines[0]);
      (if |parts| >= 5 then [parts] else []) + KeptRows(lines[1..])
  }

  /** All of the first five tokens of a row read as numbers. */
  predicate RowReads(nt: NumberText, row: seq<string>)
  {
    |row| >= 5 && nt.readInt(row[0]).Some? && nt.readReal(row[1]).Some?
    && nt.readReal(row[2]).Some? && nt.readReal(row[3]).Some? && nt.readReal(row[4]).Some?
  }

  /** The box a row reads as. */
  function RowBox(nt: NumberText, row: seq<string>): Box
    requires RowReads(nt, row)
  {
    Box(nt.readReal(row[1]).value, nt.readReal(row[2]).value, nt.readReal(row[3]).value,
        nt.readReal(row[4]).value, nt.readInt(row[0]).value)
  }

  /** The load succeeds exactly when every kept row reads, and then gives
      one box per kept row, in order, read from that row's first five
      tokens. */
  lemma {:induction false} ParseLinesMeaning(nt: NumberText, lines: seq<string>)
    ensures ParseLines(nt, lines).Ok? <==> forall k :: 0 <= k < |KeptRows(lines)| ==> RowReads(nt, KeptRows(lines)[k])
    ensures ParseLines(nt, lines).Ok? ==>
              |ParseLines(nt, lines).value| == |KeptRows(lines)|
              && forall k :: 0 <= k < |KeptRows(lines)| ==>
                   RowReads(nt, KeptRows(lines)[k]) && ParseLines(nt, lines).value[k] == RowBox(nt, KeptRows(lines)[k])
    ensures ParseLines(nt, lines).Err? ==> ParseLines(nt, lines).error == ReadError
    decreases |lines|
  {
    if lines != [] {
      ParseLinesMeaning(nt, lines[1..]);
      var parts := Tokens(lines[0]);
      var rows := KeptRows(lines);
      var tail := KeptRows(lines[1..]);
      if |parts| >= 5 {
        assert rows == [parts] + tail;
        assert forall k :: 0 <= k < |tail| ==> rows[k + 1] == tail[k];
        if RowReads(nt, parts) {
          var b := RowBox(nt, parts);
          assert ParseLine(nt, lines[0]) == Ok(Some(b));
          assert ParseLines(nt, lines) == Prepend([b], ParseLines(nt, lines[1..]));
          if ParseLines(nt, lines[1..]).Ok? {
            var vs := ParseLines(nt, lines[1..]).value;
            assert ParseLines(nt, lines).value == [b] + vs;
            assert forall k :: 0 <= k < |tail| ==> ([b] + vs)[k + 1] == vs[k];
          }
        } else {
          assert ParseLine(nt, lines[0]) == Err(ReadError);
          assert !RowReads(nt, rows[0]);
        }
      } else {
        assert rows == tail;
      }
    }
  }

  // ------------------------------------------------------------ round trip

  /** Each written number is a non-empty word without spaces or line
      breaks that reads back as the number written. */
  predicate Faithful(nt: NumberText, b: Box)
  {
    Words(Fields(nt, b))
    && nt.readInt(nt.showInt(b.cls)) == Some(b.cls)
    && nt.readReal(nt.showReal(b.x)) == Some(b.x)
    && nt.readReal(nt.showReal(b.y)) == Some(b.y)
    && nt.readReal(nt.showReal(b.w)) == Some(b.w)
    && nt.readReal(nt.showReal(b.h)) == Some(b.h)
  }

  predicate Words(ws: seq<string>)
  {
    forall k :: 0 <= k < |ws| ==> ws[k] != [] && NoSpace(ws[k])
  }

  /** Splitting words joined by single spaces gives the words back. */
  lemma {:induction false} JoinWordsTokens(ws: seq<string>)
    requires Words(ws)
    ensures Tokens(JoinWords(ws)) == ws
    decreases |ws|
  {
    if |ws| == 1 {
      TokensOfWord(ws[0]);
    } else if |ws| > 1 {
      assert Words(ws[1..]) by {
        forall k | 0 <= k < |ws| - 1
          ensures ws[1..][k] != [] && NoSpace(ws[1..][k])
        {
          assert ws[1..][k] == ws[k + 1];
        }
      }
      JoinWordsTokens(ws[1..]);
      TokensCons(ws[0], JoinWords(ws[1..]));
    }
  }

  /** Words joined by spaces hold no line break. */
  lemma {:induction false} JoinWordsNoBreak(ws: seq<string>)
    requires Words(ws)
    ensures NoBreak(JoinWords(ws))
    decreases |ws|
  {
    if |ws| == 1 {
      assert NoSpace(ws[0]);
    } else if |ws| > 1 {
      assert Words(ws[1..]) by {
        forall k | 0 <= k < |ws| - 1
          ensures ws[1..][k] != [] && NoSpace(ws[1..][k])
        {
          assert ws[1..][k] == ws[k + 1];
        }
      }
      JoinWordsNoBreak(ws[1..]);
      var a, b := ws[0], JoinWords(ws[1..]);
      assert NoSpace(a);
      var s := a + " " + b;
      forall i | 0 <= i < |s|
        ensures !IsBreak(s[i])
      {
        if i < |a| {
          assert s[i] == a[i];
        } else if i > |a| {
          assert s[i] == b[i - |a| - 1];
        }
      }
    }
  }

  /** A written line splits into exactly the five written fields. */
  lemma LineTokens(nt: NumberText, b: Box)
    requires Faithful(nt, b)
    ensures Tokens(LineBody(nt, b)) == Fields(nt, b)
  {
    JoinWordsTokens(Fields(nt, b));
  }

  /** A written line holds no line break. */
  lemma LineBodyNoBreak(nt: NumberText, b: Box)
    requires Faithful(nt, b)
    ensures NoBreak(LineBody(nt, b))
  {
    JoinWordsNoBreak(Fields(nt, b));
  }

  /** The lines of a written file are the written lines of its boxes. */
  lemma {:induction false} SerializedLines(nt: NumberText, anns: seq<Box>)
    requires forall k :: 0 <= k < |anns| ==> Faithful(nt, anns[k])
    ensures |Lines(Serialize(nt, anns))| == |anns|
    ensures forall k :: 0 <= k < |anns| ==> Lines(Serialize(nt, anns))[k] == LineBody(nt, anns[k])
    decreases |anns|
  {
    if anns != [] {
      SerializedLines(nt, anns[1..]);
      LineBodyNoBreak(nt, anns[0]);
      LinesCons(LineBody(nt, anns[0]), Serialize(nt, anns[1..]));
    }
  }

  /** Writing boxes and reading the file back gives the same boxes, in the
      same order, when every number's text reads back as that number. */
  lemma {:induction false} RoundTrip(nt: NumberText, anns: seq<Box>)
    requires forall k :: 0 <= k < |anns| ==> Faithful(nt, anns[k])
    ensures ParseAnnotations(nt, Some(Serialize(nt, anns))) == Ok(anns)
    decreases |anns|
  {
    if anns != [] {
      RoundTrip(nt, anns[1..]);
      var b := anns[0];
      LineBodyNoBreak(nt, b);
      LinesCons(LineBody(nt, b), Serialize(nt, anns[1..]));
      LineTokens(nt, b);
      assert ParseLine(nt, LineBody(nt, b)) == Ok(Some(b));
      assert [b] + anns[1..] == anns;
    }
  }

  /** A row that fails to read fails the whole load, even when the other
      lines are good: the failing line is not skipped. */
  lemma {:induction false} BadTokenFailsLoad(nt: NumberText, lines: seq<string>, k: int)
    requires 0 <= k < |lines|
    requires |Tokens(lines[k])| >= 5 && !RowReads(nt, Tokens(lines[k]))
    ensures ParseLines(nt, lines) == Err(ReadError)
    decreases |lines|
  {
    if k > 0 {
      BadTokenFailsLoad(nt, lines[1..], k - 1);
      assert lines[1..][k - 1] == lines[k];
    }
  }

  /** A line with fewer than five tokens is skipped whatever it holds. */
  lemma ShortLineSkipped(nt: NumberText, line: string, rest: seq<string>)
    requires |Tokens(line)| < 5
    ensures ParseLines(nt, [line] + rest) == ParseLines(nt, rest)
  {
    assert ([line] + rest)[1..] == rest;
  }
}
