/**
 Log files as text. A flush writes each buffered line followed by a newline
 (`outfile << line << endl`); reading a file back splits it at newlines.
 The two are inverse for lines without embedded newlines, and appending to a
 file whose text ends at a line boundary appends exactly the written lines.
 */
module TextFile {

  /** The text written for `lines`, each terminated by '\n', in order. */
  function Lines(lines: seq<string>): string {
    if lines == [] then "" else lines[0] + "\n" + Lines(lines[1..])
  }

  lemma {:induction false} LinesAppend(a: seq<string>, b: seq<string>)
    ensures Lines(a + b) == Lines(a) + Lines(b)
    decreases |a|
  {
    if a == [] {
      assert a + b == b;
    } else {
      assert (a + b)[0] == a[0];
      assert (a + b)[1..] == a[1..] + b;
      LinesAppend(a[1..], b);
      calc {
        Lines(a + b);
        a[0] + "\n" + Lines(a[1..] + b);
        a[0] + "\n" + (Lines(a[1..]) + Lines(b));
        Lines(a) + Lines(b);
      }
    }
  }

  lemma ConcatAssoc<T>(a: seq<T>, b: seq<T>, c: seq<T>)
    ensures (a + b) + c == a + (b + c)
  {
  }

  /** A line as the file sees it: no newline inside. */
  predicate SingleLine(line: string) {
    '\n' !in line
  }

  predicate AllSingleLines(lines: seq<string>) {
    forall i :: 0 <= i < |lines| ==> SingleLine(lines[i])
  }

  /** A text that ends at a line boundary: empty, or its last character is '\n'. */
  predicate Complete(text: string) {
    text == [] || text[|text| - 1] == '\n'
  }

  lemma {:induction false} LinesComplete(lines: seq<string>)
    ensures Complete(Lines(lines))
    decreases |lines|
  {
    if lines != [] {
      LinesComplete(lines[1..]);
    }
  }

  /** Position of the first occurrence of `c` in `text`. */
  function IndexOf(text: string, c: char): (i: nat)
    requires c in text
    ensures i < |text| && text[i] == c
    ensures forall k :: 0 <= k < i ==> text[k] != c
    decreases |text|
  {
    if text[0] == c then 0
    else
      assert c in text[1..] by {
        var k :| 0 <= k < |text| && text[k] == c;
        assert text[1..][k - 1] == c;
      }
      IndexOf(text[1..], c) + 1
  }

  /**
   The complete lines of a text, in order, each without its terminating '\n'.
   A trailing fragment without a newline is not a line.
   */
  function SplitLines(text: string): seq<string>
    decreases |text|
  {
    if '\n' !in text then []
    else
      var i := IndexOf(text, '\n');
      [text[..i]] + SplitLines(text[i + 1..])
  }

  /** Reading back what was written gives the written lines. */
  lemma {:induction false} SplitLinesOfLines(lines: seq<string>)
    requires AllSingleLines(lines)
    ensures SplitLines(Lines(lines)) == lines
    decreases |lines|
  {
    if lines != [] {
      var text := Lines(lines);
      var first := lines[0];
      assert text == first + "\n" + Lines(lines[1..]);
      assert text[|first|] == '\n';
      assert '\n' in text;
      var i := IndexOf(text, '\n');
      assert text[..|first|] == first;
      assert i == |first|;
      assert text[i + 1..] == Lines(lines[1..]);
      SplitLinesOfLines(lines[1..]);
    }
  }

  /** Text appended after a line boundary contributes its own lines after the existing ones. */
  lemma {:induction false} SplitLinesAppend(a: string, b: string)
    requires Complete(a)
    ensures SplitLines(a + b) == SplitLines(a) + SplitLines(b)
    decreases |a|
  {
    if a != [] {
      var i, rest := SplitFirst(a, b);
      SplitLinesAppend(rest, b);
      assert SplitLines(a + b) == [a[..i]] + (SplitLines(rest) + SplitLines(b));
    } else {
      assert a + b == b;
    }
  }

  /** One step of `SplitLinesAppend`: the first line of `a` is also the first line of `a + b`. */
  lemma SplitFirst(a: string, b: string) returns (i: nat, rest: string)
    requires Complete(a) && a != []
    ensures i < |a| && rest == a[i + 1..] && Complete(rest)
    ensures SplitLines(a) == [a[..i]] + SplitLines(rest)
    ensures SplitLines(a + b) == [a[..i]] + SplitLines(rest + b)
  {
    assert a[|a| - 1] == '\n';
    i := FirstNewlineOfAppend(a, b);
    rest := a[i + 1..];
    assert Complete(rest) by {
      if rest != [] {
        assert rest[|rest| - 1] == a[|a| - 1];
      }
    }
    assert (a + b)[i + 1..] == rest + b;
    assert (a + b)[..i] == a[..i];
  }

  /** A text with a newline keeps its first newline when something is appended. */
  lemma FirstNewlineOfAppend(a: string, b: string) returns (i: nat)
    requires '\n' in a
    ensures '\n' in a + b
    ensures i == IndexOf(a, '\n') == IndexOf(a + b, '\n')
  {
    i := IndexOf(a, '\n');
    var ab := a + b;
    assert ab[..i] == a[..i];
    assert ab[i] == '\n';
    var j := IndexOf(ab, '\n');
  }

  /**
   Appending the text of `lines` to a file that ends at a line boundary adds
   exactly those lines, in order, after the ones already there.
   */
  lemma AppendLines(file: string, lines: seq<string>)
    requires Complete(file)
    requires AllSingleLines(lines)
    ensures SplitLines(file + Lines(lines)) == SplitLines(file) + lines
    ensures Complete(file + Lines(lines))
  {
    SplitLinesAppend(file, Lines(lines));
    SplitLinesOfLines(lines);
    LinesComplete(lines);
  }
}
