/** The prompt command's text splitter: greedy packing of newline-separated
    lines into chunks of at most `maxLength` characters, with a hard cut for
    lines that are longer than `maxLength` on their own. */
module Splitter {
  import opened Text

  /** Default chunk size: the embed description limit. */
  const DefaultMaxLength: nat := 4096

  /** The pieces of exactly `maxLength` characters cut off the front of an
      over-long line while more than `maxLength` characters remain. */
  function CutPieces(s: string, maxLength: nat): (r: seq<string>)
    requires maxLength > 0
    ensures forall i :: 0 <= i < |r| ==> |r[i]| == maxLength
    decreases |s|
  {
    if |s| > maxLength then [s[..maxLength]] + CutPieces(s[maxLength..], maxLength) else []
  }

  /** What is left of a line once the hard cut stops. */
  function CutRest(s: string, maxLength: nat): (r: string)
    requires maxLength > 0
    ensures |r| <= maxLength
    ensures |s| > 0 ==> |r| > 0
    decreases |s|
  {
    if |s| > maxLength then CutRest(s[maxLength..], maxLength) else s
  }

  /** The hard cut drops and duplicates nothing. */
  lemma {:induction false} CutRoundTrip(s: string, maxLength: nat)
    requires maxLength > 0
    ensures Flatten(CutPieces(s, maxLength)) + CutRest(s, maxLength) == s
    decreases |s|
  {
    if |s| > maxLength {
      CutRoundTrip(s[maxLength..], maxLength);
      var p := CutPieces(s[maxLength..], maxLength);
      assert CutPieces(s, maxLength)[1..] == p;
      assert s == s[..maxLength] + s[maxLength..];
    } else {
      assert CutPieces(s, maxLength) == [];
    }
  }

  function TrimAll(parts: seq<string>): (r: seq<string>)
    ensures |r| == |parts|
    ensures forall i :: 0 <= i < |r| ==> r[i] == Trim(parts[i])
  {
    seq(|parts|, i requires 0 <= i < |parts| => Trim(parts[i]))
  }

  lemma {:induction false} StripTrimAll(parts: seq<string>)
    ensures Strip(Flatten(TrimAll(parts))) == Strip(Flatten(parts))
    decreases |parts|
  {
    if parts != [] {
      var t := TrimAll(parts);
      assert t[1..] == TrimAll(parts[1..]);
      StripTrimAll(parts[1..]);
      StripAppend(t[0], Flatten(t[1..]));
      StripAppend(parts[0], Flatten(parts[1..]));
      StripTrim(parts[0]);
    }
  }

  /** The loop state: chunks pushed so far and the chunk being built. */
  datatype Packer = Packer(chunks: seq<string>, current: string)

  /** Push the chunk being built, trimmed, if it is not empty. */
  function Flush(p: Packer): seq<string> {
    if p.current != [] then p.chunks + [Trim(p.current)] else p.chunks
  }

  /** One iteration of the line loop. */
  function PackLine(p: Packer, line: string, maxLength: nat): Packer
    requires maxLength > 0
  {
    if |p.current| + |line| + 1 > maxLength then
      if |line| > maxLength then
        var rest := CutRest(line, maxLength);
        Packer(Flush(p) + TrimAll(CutPieces(line, maxLength)), if rest != [] then rest else [])
      else
        Packer(Flush(p), line)
    else
      Packer(p.chunks, if p.current != [] then p.current + ['\n'] + line else line)
  }

  /** The packing is greedy: a line goes into the chunk being built
      whenever it fits there with its newline; only a line that does not fit
      closes that chunk, which is then pushed trimmed; pushed chunks are
      never revisited. */
  lemma PackLineGreedy(p: Packer, line: string, maxLength: nat)
    requires maxLength > 0
    ensures var q := PackLine(p, line, maxLength);
      && |p.chunks| <= |q.chunks| && q.chunks[..|p.chunks|] == p.chunks
      && (|q.chunks| > |p.chunks| ==> |p.current| + |line| + 1 > maxLength)
      && (|p.current| + |line| + 1 > maxLength && p.current != [] ==> q.chunks[|p.chunks|] == Trim(p.current))
      && (|p.current| + |line| + 1 <= maxLength ==> StartsWith(q.current, p.current) && q.current[|q.current| - |line|..] == line)
  {
    var q := PackLine(p, line, maxLength);
    if |p.current| + |line| + 1 <= maxLength && p.current != [] {
      assert q.current == p.current + (['\n'] + line);
      AppendStartsWith(p.current, ['\n'] + line);
    }
  }

  function PackLines(p: Packer, lines: seq<string>, maxLength: nat): Packer
    requires maxLength > 0
    decreases |lines|
  {
    if lines == [] then p else PackLines(PackLine(p, lines[0], maxLength), lines[1..], maxLength)
  }

  /** Split `text` into chunks for embed descriptions.  A text that fits is
      returned whole and untrimmed; otherwise its lines are packed greedily,
      over-long lines are hard-cut, and each pushed chunk is trimmed. */
  function SplitText(text: string, maxLength: nat := DefaultMaxLength): seq<string>
    requires maxLength > 0
  {
    if |text| <= maxLength then [text]
    else Flush(PackLines(Packer([], []), SplitOn(text, '\n'), maxLength))
  }

  // ---- length bound ----

  predicate Bounded(chunks: seq<string>, maxLength: nat) {
    forall i :: 0 <= i < |chunks| ==> |chunks[i]| <= maxLength
  }

  predicate PackerBounded(p: Packer, maxLength: nat) {
    Bounded(p.chunks, maxLength) && |p.current| <= maxLength
  }

  lemma FlushBounded(p: Packer, maxLength: nat)
    requires PackerBounded(p, maxLength)
    ensures Bounded(Flush(p), maxLength)
  {
  }

  lemma BoundedAppend(a: seq<string>, b: seq<string>, maxLength: nat)
    requires Bounded(a, maxLength) && Bounded(b, maxLength)
    ensures Bounded(a + b, maxLength)
  {
    forall i | 0 <= i < |a + b|
      ensures |(a + b)[i]| <= maxLength
    {
      if i >= |a| {
        assert (a + b)[i] == b[i - |a|];
      }
    }
  }

  /** Hard-cut pieces, trimmed, still fit. */
  lemma CutPiecesBounded(line: string, maxLength: nat)
    requires maxLength > 0
    ensures Bounded(TrimAll(CutPieces(line, maxLength)), maxLength)
  {
    var pieces := CutPieces(line, maxLength);
    var t := TrimAll(pieces);
    forall i | 0 <= i < |t|
      ensures |t[i]| <= maxLength
    {
      assert t[i] == Trim(pieces[i]);
    }
  }

  lemma PackLineBounded(p: Packer, line: string, maxLength: nat)
    requires maxLength > 0
    requires PackerBounded(p, maxLength)
    ensures PackerBounded(PackLine(p, line, maxLength), maxLength)
  {
    var q := PackLine(p, line, maxLength);
    if |p.current| + |line| + 1 > maxLength {
      FlushBounded(p, maxLength);
      if |line| > maxLength {
        CutPiecesBounded(line, maxLength);
        BoundedAppend(Flush(p), TrimAll(CutPieces(line, maxLength)), maxLength);
        assert q.chunks == Flush(p) + TrimAll(CutPieces(line, maxLength));
        assert |q.current| <= |CutRest(line, maxLength)|;
      } else {
        assert q == Packer(Flush(p), line);
      }
    } else {
      assert q.chunks == p.chunks;
      assert |q.current| <= |p.current| + |line| + 1;
    }
  }

  lemma {:induction false} PackLinesBounded(p: Packer, lines: seq<string>, maxLength: nat)
    requires maxLength > 0
    requires PackerBounded(p, maxLength)
    ensures PackerBounded(PackLines(p, lines, maxLength), maxLength)
    decreases |lines|
  {
    if lines != [] {
      PackLineBounded(p, lines[0], maxLength);
      PackLinesBounded(PackLine(p, lines[0], maxLength), lines[1..], maxLength);
    }
  }

  /** Every chunk fits in `maxLength`. */
  lemma SplitTextBounded(text: string, maxLength: nat)
    requires maxLength > 0
    ensures Bounded(SplitText(text, maxLength), maxLength)
  {
    if |text| > maxLength {
      PackLinesBounded(Packer([], []), SplitOn(text, '\n'), maxLength);
    }
  }

  // ---- content ----

  /** The whitespace-free content held by the loop state. */
  function Content(p: Packer): string {
    Strip(Flatten(p.chunks)) + Strip(p.current)
  }

  lemma FlattenSingle(x: string)
    ensures Flatten([x]) == x
  {
    assert [x][1..] == [];
    assert Flatten([x]) == x + Flatten([]);
  }

  lemma FlushContent(p: Packer)
    ensures Strip(Flatten(Flush(p))) == Content(p)
  {
    if p.current != [] {
      FlattenAppend(p.chunks, [Trim(p.current)]);
      FlattenSingle(Trim(p.current));
      StripAppend(Flatten(p.chunks), Trim(p.current));
      StripTrim(p.current);
    } else {
      assert Strip(p.current) == [];
    }
  }

  lemma StripFlattenAppend(a: seq<string>, b: seq<string>)
    ensures Strip(Flatten(a + b)) == Strip(Flatten(a)) + Strip(Flatten(b))
  {
    FlattenAppend(a, b);
    StripAppend(Flatten(a), Flatten(b));
  }

  /** The trimmed pieces and the rest of a hard cut hold the line's content. */
  lemma HardCutPiecesContent(line: string, maxLength: nat)
    requires maxLength > 0
    ensures Strip(Flatten(TrimAll(CutPieces(line, maxLength)))) + Strip(CutRest(line, maxLength)) == Strip(line)
  {
    var pieces := CutPieces(line, maxLength);
    StripTrimAll(pieces);
    CutRoundTrip(line, maxLength);
    StripAppend(Flatten(pieces), CutRest(line, maxLength));
  }

  /** Flushing and then pushing `t` with `rest` as the new current chunk
      keeps whatever content `t` and `rest` hold. */
  lemma FlushPushContent(p: Packer, t: seq<string>, rest: string)
    ensures Content(Packer(Flush(p) + t, rest)) == Content(p) + (Strip(Flatten(t)) + Strip(rest))
  {
    StripFlattenAppend(Flush(p), t);
    FlushContent(p);
  }

  /** The hard-cut branch keeps the line's content. */
  lemma HardCutContent(p: Packer, line: string, maxLength: nat)
    requires maxLength > 0
    ensures Content(Packer(Flush(p) + TrimAll(CutPieces(line, maxLength)), CutRest(line, maxLength)))
         == Content(p) + Strip(line)
  {
    FlushPushContent(p, TrimAll(CutPieces(line, maxLength)), CutRest(line, maxLength));
    HardCutPiecesContent(line, maxLength);
  }

  /** The append branch keeps the line's content; the newline is whitespace. */
  lemma AppendContent(p: Packer, line: string)
    ensures Content(Packer(p.chunks, if p.current != [] then p.current + ['\n'] + line else line))
         == Content(p) + Strip(line)
  {
    if p.current != [] {
      StripAppend(p.current + ['\n'], line);
      StripAppend(p.current, ['\n']);
    } else {
      assert Strip(p.current) == [];
    }
  }

  lemma PackLineContent(p: Packer, line: string, maxLength: nat)
    requires maxLength > 0
    ensures Content(PackLine(p, line, maxLength)) == Content(p) + Strip(line)
  {
    if |p.current| + |line| + 1 > maxLength {
      if |line| > maxLength {
        HardCutContent(p, line, maxLength);
      } else {
        FlushContent(p);
        StripAppend(Flatten(Flush(p)), line);
      }
    } else {
      AppendContent(p, line);
    }
  }

  lemma {:induction false} PackLinesContent(p: Packer, lines: seq<string>, maxLength: nat)
    requires maxLength > 0
    ensures Content(PackLines(p, lines, maxLength)) == Content(p) + Strip(Flatten(lines))
    decreases |lines|
  {
    if lines == [] {
      assert Strip(Flatten(lines)) == [];
    } else {
      var p' := PackLine(p, lines[0], maxLength);
      var a, b, c := Content(p), Strip(lines[0]), Strip(Flatten(lines[1..]));
      assert Content(PackLines(p, lines, maxLength)) == Content(p') + c by {
        PackLinesContent(p', lines[1..], maxLength);
      }
      assert Content(p') == a + b by {
        PackLineContent(p, lines[0], maxLength);
      }
      assert Strip(Flatten(lines)) == b + c by {
        StripAppend(lines[0], Flatten(lines[1..]));
      }
      assert (a + b) + c == a + (b + c);
    }
  }

  /** Only whitespace is lost: the chunks' non-whitespace characters are the
      input's, in order. */
  lemma SplitTextKeepsContent(text: string, maxLength: nat)
    requires maxLength > 0
    ensures Strip(Flatten(SplitText(text, maxLength))) == Strip(text)
  {
    if |text| <= maxLength {
      assert Flatten([text]) == text + Flatten([]);
      assert text + [] == text;
    } else {
      var lines := SplitOn(text, '\n');
      var p := PackLines(Packer([], []), lines, maxLength);
      PackLinesContent(Packer([], []), lines, maxLength);
      assert Content(Packer([], [])) == [];
      FlushContent(p);
      StripJoin(lines, '\n');
    }
  }

  // ---- shape ----

  /** A text that fits is returned as the only chunk, untrimmed. */
  lemma SplitTextShort(text: string, maxLength: nat)
    requires maxLength > 0 && |text| <= maxLength
    ensures SplitText(text, maxLength) == [text]
  {
  }

  /** Once something non-empty was seen, the state holds a chunk or a
      non-empty current chunk, whatever lines follow. */
  lemma {:induction false} PackLinesKeepsSomething(p: Packer, lines: seq<string>, maxLength: nat)
    requires maxLength > 0
    requires |p.chunks| > 0 || p.current != []
    ensures |Flush(PackLines(p, lines, maxLength))| > 0
    decreases |lines|
  {
    if lines != [] {
      var q := PackLine(p, lines[0], maxLength);
      assert |q.chunks| > 0 || q.current != [];
      PackLinesKeepsSomething(q, lines[1..], maxLength);
    }
  }

  /** A text whose first line is not empty yields at least one chunk. */
  lemma SplitTextNotEmpty(text: string, maxLength: nat)
    requires maxLength > 0
    requires |text| > 0 && text[0] != '\n'
    ensures |SplitText(text, maxLength)| > 0
  {
    if |text| > maxLength {
      var lines := SplitOn(text, '\n');
      assert lines[0] != [];
      var q := PackLine(Packer([], []), lines[0], maxLength);
      assert |q.chunks| > 0 || q.current != [];
      PackLinesKeepsSomething(q, lines[1..], maxLength);
    }
  }

  /** The loop has pushed a non-empty first chunk, or has pushed nothing
      yet and is building a chunk that opens with a non-space character. */
  predicate FirstChunkSolid(p: Packer) {
    if p.chunks == [] then p.current != [] && !IsSpace(p.current[0]) else p.chunks[0] != []
  }

  /** Trimming cannot empty a string that opens with a non-space character. */
  lemma TrimKeepsSolid(s: string)
    requires s != [] && !IsSpace(s[0])
    ensures Trim(s) != []
  {
    StripTrim(s);
    assert Strip(s) == [s[0]] + Strip(s[1..]);
  }

  lemma {:induction false} PackLinesFirstChunk(p: Packer, lines: seq<string>, maxLength: nat)
    requires maxLength > 0
    requires FirstChunkSolid(p)
    ensures var q := PackLines(p, lines, maxLength); |Flush(q)| > 0 && Flush(q)[0] != []
    decreases |lines|
  {
    if lines == [] {
      if p.chunks == [] {
        TrimKeepsSolid(p.current);
      }
    } else {
      var q := PackLine(p, lines[0], maxLength);
      PackLineGreedy(p, lines[0], maxLength);
      if p.chunks == [] && |p.current| + |lines[0]| + 1 > maxLength {
        TrimKeepsSolid(p.current);
        assert q.chunks[0] == Trim(p.current);
      } else if p.chunks != [] {
        assert q.chunks[0] == p.chunks[0];
      }
      assert FirstChunkSolid(q);
      PackLinesFirstChunk(q, lines[1..], maxLength);
    }
  }

  /** A text that opens with a non-space character never yields an empty
      first chunk, whatever its later lines hold. */
  lemma SplitTextFirstChunk(text: string, maxLength: nat)
    requires maxLength > 0
    requires |text| > 0 && !IsSpace(text[0])
    ensures |SplitText(text, maxLength)| > 0 && SplitText(text, maxLength)[0] != []
  {
    if |text| > maxLength {
      var lines := SplitOn(text, '\n');
      var line := lines[0];
      assert line != [] && line[0] == text[0];
      var q := PackLine(Packer([], []), line, maxLength);
      if |line| > maxLength {
        var pieces := CutPieces(line, maxLength);
        assert pieces[0] == line[..maxLength];
        TrimKeepsSolid(pieces[0]);
        assert q.chunks[0] == Trim(pieces[0]);
      }
      assert FirstChunkSolid(q);
      PackLinesFirstChunk(q, lines[1..], maxLength);
    }
  }

  /** A text made only of newlines and longer than `maxLength` yields no
      chunk at all: every line is empty and never starts a chunk. */
  lemma SplitTextOnlyNewlines(text: string, maxLength: nat)
    requires maxLength > 0 && |text| > maxLength
    requires forall i :: 0 <= i < |text| ==> text[i] == '\n'
    ensures SplitText(text, maxLength) == []
  {
    var lines := SplitOn(text, '\n');
    SplitOnOnlySeparators(text, '\n');
    PackEmptyLines(lines, maxLength);
  }

  lemma {:induction false} SplitOnOnlySeparators(s: string, sep: char)
    requires forall i :: 0 <= i < |s| ==> s[i] == sep
    ensures forall i :: 0 <= i < |SplitOn(s, sep)| ==> SplitOn(s, sep)[i] == []
  {
    if s != [] {
      SplitOnOnlySeparators(s[1..], sep);
    }
  }

  /** Empty lines leave an empty packer untouched. */
  lemma {:induction false} PackEmptyLines(lines: seq<string>, maxLength: nat)
    requires maxLength > 0
    requires forall i :: 0 <= i < |lines| ==> lines[i] == []
    ensures PackLines(Packer([], []), lines, maxLength) == Packer([], [])
    decreases |lines|
  {
    if lines != [] {
      assert PackLine(Packer([], []), lines[0], maxLength) == Packer([], []);
      PackEmptyLines(lines[1..], maxLength);
    }
  }

  /** A whitespace-only hard-cut piece trims to an empty chunk. */
  lemma SplitTextCanEmitEmptyChunk()
    ensures SplitText("   ", 2) == ["", ""]
  {
    assert SplitOn("   ", '\n') == ["   "];
    assert "   "[..2] == "  ";
    assert "   "[2..] == " ";
    assert CutPieces(" ", 2) == [];
    assert CutPieces("   ", 2) == ["  "];
    assert CutRest("   ", 2) == " ";
    assert Trim("  ") == "";
    assert Trim(" ") == "";
    var p := PackLine(Packer([], []), "   ", 2);
    assert p == Packer([""], " ");
    assert PackLines(p, [], 2) == p;
  }

  /** A single over-long line is cut at exact `maxLength` boundaries,
      whatever whitespace it contains: chunk `i` is characters
      `i * maxLength` up to `(i + 1) * maxLength`, trimmed. */
  lemma SplitTextSingleLine(text: string, maxLength: nat)
    requires maxLength > 0
    requires |text| > maxLength && '\n' !in text
    ensures SplitText(text, maxLength) == TrimAll(CutPieces(text, maxLength)) + [Trim(CutRest(text, maxLength))]
  {
    assert SplitOn(text, '\n') == [text] by {
      SplitOnJoin([text], '\n');
    }
    var p := PackLine(Packer([], []), text, maxLength);
    var rest := CutRest(text, maxLength);
    assert p == Packer(TrimAll(CutPieces(text, maxLength)), rest);
    assert PackLines(p, [], maxLength) == p;
  }

  /** The number of chunks of a single over-long line is the ceiling of
      `|text| / maxLength`. */
  lemma SplitTextSingleLineCount(text: string, maxLength: nat)
    requires maxLength > 0
    requires |text| > maxLength && '\n' !in text
    ensures var n := |SplitText(text, maxLength)|; (n - 1) * maxLength < |text| <= n * maxLength
  {
    SplitTextSingleLine(text, maxLength);
    CutCount(text, maxLength);
  }

  lemma {:induction false} CutCount(s: string, maxLength: nat)
    requires maxLength > 0 && |s| > 0
    ensures var k := |CutPieces(s, maxLength)|; k * maxLength < |s| <= (k + 1) * maxLength
    decreases |s|
  {
    if |s| > maxLength {
      CutCount(s[maxLength..], maxLength);
      var k' := |CutPieces(s[maxLength..], maxLength)|;
      assert |CutPieces(s, maxLength)| == k' + 1;
      assert (k' + 1) * maxLength == k' * maxLength + maxLength;
      assert (k' + 2) * maxLength == (k' + 1) * maxLength + maxLength;
    }
  }
}
