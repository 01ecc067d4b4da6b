/**
  The command-line helpers of kmeans.c: sizing the data file by counting
  characters (`get_num_and_dim`) and validating the arguments
  (`parse_args`).
 */
module KMeansInput {
  import opened Results

  /** How many times `ch` occurs in `s`. */
  function Occurrences(s: seq<char>, ch: char): (n: nat)
    ensures n <= |s|
    ensures n == 0 <==> ch !in s
    decreases |s|
  {
    if |s| == 0 then 0
    else Occurrences(s[..|s| - 1], ch) + (if s[|s| - 1] == ch then 1 else 0)
  }

  lemma {:induction false} OccurrencesAppend(a: seq<char>, b: seq<char>, ch: char)
    ensures Occurrences(a + b, ch) == Occurrences(a, ch) + Occurrences(b, ch)
    decreases |b|
  {
    if |b| > 0 {
      var n := |b| - 1;
      OccurrencesAppend(a, b[..n], ch);
      assert (a + b)[..|a + b| - 1] == a + b[..n];
    } else {
      assert a + b == a;
    }
  }

  /** The text before the first line break, or all of it when it has none. */
  function FirstLine(s: seq<char>): (r: seq<char>)
    ensures r <= s && '\n' !in r
    ensures |r| < |s| ==> s[|r|] == '\n'
    decreases |s|
  {
    if |s| == 0 || s[0] == '\n' then [] else [s[0]] + FirstLine(s[1..])
  }

  /** The first line of a text without a line break is the whole text. */
  lemma FirstLineOfOneLine(s: seq<char>)
    requires '\n' !in s
    ensures FirstLine(s) == s
  {
    assert forall i :: 0 <= i < |s| ==> s[i] != '\n';
  }

  /** How the first line grows as the text is read one more character. */
  lemma FirstLineExtend(s: seq<char>, c: char)
    ensures FirstLine(s + [c]) ==
      if '\n' in s then FirstLine(s) else if c == '\n' then s else s + [c]
  {
    var r := FirstLine(s);
    if '\n' in s {
      assert r != s;
      FirstLineFromPrefix(s + [c], r);
    } else {
      FirstLineOfOneLine(s);
      if c == '\n' {
        FirstLineFromPrefix(s + [c], s);
      } else {
        FirstLineOfOneLine(s + [c]);
      }
    }
  }

  /** A prefix without line breaks followed by a line break, or by the end
      of the text, is the first line. */
  lemma {:induction false} FirstLineFromPrefix(s: seq<char>, r: seq<char>)
    requires r <= s && '\n' !in r
    requires |r| < |s| ==> s[|r|] == '\n'
    ensures FirstLine(s) == r
    decreases |s|
  {
    if |s| > 0 && s[0] != '\n' {
      assert |r| > 0;
      assert r[0] == s[0];
      FirstLineFromPrefix(s[1..], r[1..]);
      assert r == [r[0]] + r[1..];
    }
  }

  /** `get_num_and_dim`: `numData` counts the line breaks of the text and
      `dim` is one more than the commas on its first line. */
  method GetNumAndDim(text: seq<char>) returns (numData: int, dim: int)
    ensures numData == Occurrences(text, '\n')
    ensures dim == 1 + Occurrences(FirstLine(text), ',')
  {
    dim := 1;
    numData := 0;
    for i := 0 to |text|
      invariant numData == Occurrences(text[..i], '\n')
      invariant dim == 1 + Occurrences(FirstLine(text[..i]), ',')
    {
      var c := text[i];
      ghost var s := text[..i];
      assert text[..i + 1] == s + [c];
      FirstLineExtend(s, c);
      if '\n' !in s {
        FirstLineOfOneLine(s);
        assert (s + [c])[..|s|] == s;
      }
      if c == '\n' {
        numData := numData + 1;
      } else if c == ',' && numData == 0 {
        dim := dim + 1;
      }
    }
    assert text[..|text|] == text;
  }

  /** A field of a data file: a number written without commas or line
      breaks. */
  ghost predicate PlainField(f: seq<char>) {
    ',' !in f && '\n' !in f
  }

  /** The fields of one row, separated by commas. */
  function JoinFields(fields: seq<seq<char>>): seq<char>
    decreases |fields|
  {
    if |fields| <= 1 then (if |fields| == 0 then [] else fields[0])
    else JoinFields(fields[..|fields| - 1]) + [','] + fields[|fields| - 1]
  }

  /** The text of a data file: every row followed by a line break. */
  function Lines(rows: seq<seq<seq<char>>>): seq<char>
    decreases |rows|
  {
    if |rows| == 0 then [] else Lines(rows[..|rows| - 1]) + JoinFields(rows[|rows| - 1]) + ['\n']
  }

  lemma {:induction false} JoinFieldsShape(fields: seq<seq<char>>)
    requires |fields| > 0 && forall i :: 0 <= i < |fields| ==> PlainField(fields[i])
    ensures Occurrences(JoinFields(fields), ',') == |fields| - 1
    ensures '\n' !in JoinFields(fields)
    decreases |fields|
  {
    if |fields| > 1 {
      var n := |fields| - 1;
      JoinFieldsShape(fields[..n]);
      OccurrencesAppend(JoinFields(fields[..n]) + [','], fields[n], ',');
      OccurrencesAppend(JoinFields(fields[..n]), [','], ',');
      OccurrencesAppend(JoinFields(fields[..n]) + [','], fields[n], '\n');
      OccurrencesAppend(JoinFields(fields[..n]), [','], '\n');
    }
  }

  lemma {:induction false} LinesCount(rows: seq<seq<seq<char>>>)
    requires forall r, i :: 0 <= r < |rows| && 0 <= i < |rows[r]| ==> PlainField(rows[r][i])
    requires forall r :: 0 <= r < |rows| ==> |rows[r]| > 0
    ensures Occurrences(Lines(rows), '\n') == |rows|
    decreases |rows|
  {
    if |rows| > 0 {
      var n := |rows| - 1;
      LinesCount(rows[..n]);
      JoinFieldsShape(rows[n]);
      OccurrencesAppend(Lines(rows[..n]) + JoinFields(rows[n]), ['\n'], '\n');
      OccurrencesAppend(Lines(rows[..n]), JoinFields(rows[n]), '\n');
    }
  }

  lemma {:induction false} FirstLineOfLines(rows: seq<seq<seq<char>>>)
    requires |rows| > 0
    requires forall r, i :: 0 <= r < |rows| && 0 <= i < |rows[r]| ==> PlainField(rows[r][i])
    requires forall r :: 0 <= r < |rows| ==> |rows[r]| > 0
    ensures FirstLine(Lines(rows)) == JoinFields(rows[0])
    decreases |rows|
  {
    var n := |rows| - 1;
    JoinFieldsShape(rows[0]);
    if n == 0 {
      assert Lines(rows) == JoinFields(rows[0]) + ['\n'];
      FirstLineFromPrefix(Lines(rows), JoinFields(rows[0]));
    } else {
      FirstLineOfLines(rows[..n]);
      var head := Lines(rows[..n]);
      var r := FirstLine(head);
      assert r != head by {
        LinesCount(rows[..n]);
      }
      assert Lines(rows) == head + (JoinFields(rows[n]) + ['\n']);
      FirstLineFromPrefix(Lines(rows), r);
    }
  }

  /** On a well-formed data file, whose every line ends in a line break and
      holds a non-empty row of comma-separated fields, `get_num_and_dim`
      finds the number of rows and the length of the first row. */
  lemma SizesOfDataFile(rows: seq<seq<seq<char>>>)
    requires |rows| > 0
    requires forall r, i :: 0 <= r < |rows| && 0 <= i < |rows[r]| ==> PlainField(rows[r][i])
    requires forall r :: 0 <= r < |rows| ==> |rows[r]| > 0
    ensures Occurrences(Lines(rows), '\n') == |rows|
    ensures 1 + Occurrences(FirstLine(Lines(rows)), ',') == |rows[0]|
  {
    LinesCount(rows);
    FirstLineOfLines(rows);
    JoinFieldsShape(rows[0]);
  }

  /** The settings `main` takes from its arguments. */
  datatype Config = Config(k: int, maxIter: int, infile: string, outfile: string)

  /** `assert_input` fails with "Invalid Input!". */
  datatype InputError = InvalidInput

  /** `parse_args`, with `atoi` standing for the C library's conversion.
      `argv[0]` is the program name; the rest is `K [max_iter] infile
      outfile`. */
  function ParseArgs(argv: seq<string>, atoi: string -> int): (r: Result<Config, InputError>)
    ensures r.Success? <==>
      && (|argv| == 4 || |argv| == 5)
      && atoi(argv[1]) > 0
      && (|argv| == 5 ==> atoi(argv[2]) > 0)
    ensures r.Success? ==>
      && r.value.k == atoi(argv[1]) > 0
      && r.value.maxIter > 0
      && r.value.maxIter == (if |argv| == 4 then 200 else atoi(argv[2]))
      && r.value.infile == argv[|argv| - 2]
      && r.value.outfile == argv[|argv| - 1]
  {
    if !(|argv| == 3 + 1 || |argv| == 4 + 1) then Failure(InvalidInput)
    else
      var k := atoi(argv[1]);
      if !(k > 0) then Failure(InvalidInput)
      else
        var (maxIter, offset) := if |argv| == 3 + 1 then (200, 0) else (atoi(argv[2]), 1);
        if !(maxIter > 0) then Failure(InvalidInput)
        else Success(Config(k, maxIter, argv[2 + offset], argv[3 + offset]))
  }

  /** Giving `max_iter` as 200 is the same as leaving it out. */
  lemma ExplicitDefaultMaxIter(program: string, k: string, maxIter: string, infile: string, outfile: string,
                               atoi: string -> int)
    requires atoi(maxIter) == 200
    ensures ParseArgs([program, k, maxIter, infile, outfile], atoi) == ParseArgs([program, k, infile, outfile], atoi)
  {
  }
}
