/**
 * The comment stripper run on a JSON input file before it is parsed: every
 * line is cut at its first comment character and the lines left empty are
 * dropped.  The file is given as its text; reading it and the JSON parser
 * itself are not part of this model.
 */
module Json {

  /** The default comment marker.  It is searched as a set of characters, not as a substring. */
  const DefaultId: string := "//"

  /** find_first_of: the index of the first character of s that occurs in cs, or |s| when there is none. */
  function FirstIn(s: string, cs: string): (r: nat)
    ensures r <= |s|
    ensures forall k :: 0 <= k < r ==> s[k] !in cs
    ensures r < |s| ==> s[r] in cs
  {
    if |s| == 0 then 0
    else if s[0] in cs then 0
    else 1 + FirstIn(s[1..], cs)
  }

  /** No character of s occurs in cs. */
  predicate Avoids(s: string, cs: string)
  {
    forall k :: 0 <= k < |s| ==> s[k] !in cs
  }

  /**
   * The lines getline reads from text: split at each newline, the newlines
   * dropped, and no empty line after a final newline.
   */
  function Lines(text: string): seq<string>
    decreases |text|
  {
    if |text| == 0 then []
    else
      var e := FirstIn(text, "\n");
      if e == |text| then [text] else [text[..e]] + Lines(text[e + 1..])
  }

  /** One line with everything from its first character in id onward erased. */
  function Truncate(line: string, id: string): (r: string)
    ensures Avoids(r, id)
    ensures r <= line
    ensures Avoids(line, id) ==> r == line
    ensures |r| < |line| ==> line[|r|] in id
  {
    line[..FirstIn(line, id)]
  }

  /** The truncated lines that are not empty, in input order. */
  function Kept(lines: seq<string>, id: string): seq<string>
  {
    if |lines| == 0 then []
    else
      var t := Truncate(lines[|lines| - 1], id);
      Kept(lines[..|lines| - 1], id) + (if |t| > 0 then [t] else [])
  }

  /** getline never yields a line holding a newline. */
  lemma {:induction false} LinesHaveNoNewline(text: string)
    ensures forall i :: 0 <= i < |Lines(text)| ==> Avoids(Lines(text)[i], "\n")
    decreases |text|
  {
    if |text| > 0 {
      var e := FirstIn(text, "\n");
      if e < |text| {
        LinesHaveNoNewline(text[e + 1..]);
      }
    }
  }

  /** Every kept line is non-empty and free of characters of id, and there are no more of them than input lines. */
  lemma {:induction false} KeptClean(lines: seq<string>, id: string)
    ensures |Kept(lines, id)| <= |lines|
    ensures forall i :: 0 <= i < |Kept(lines, id)| ==> |Kept(lines, id)[i]| > 0 && Avoids(Kept(lines, id)[i], id)
  {
    if |lines| > 0 {
      KeptClean(lines[..|lines| - 1], id);
    }
  }

  /** Each line written to the stream followed by a newline. */
  function Join(lines: seq<string>): string
  {
    if |lines| == 0 then "" else Join(lines[..|lines| - 1]) + lines[|lines| - 1] + "\n"
  }

  /** What stripComments appends to its output stream for the file text. */
  function Stripped(text: string, id: string): string
  {
    Join(Kept(Lines(text), id))
  }

  /**
   * stripComments(in, out, id): reads text line by line, erases each line
   * from its first character in id, and appends the lines that are left
   * non-empty, each followed by a newline, to what out already holds.
   */
  method StripComments(text: string, out0: string, id: string) returns (out: string)
    ensures out == out0 + Stripped(text, id)
  {
    out := out0;
    var rest := text;
    ghost var done: seq<string> := [];
    while |rest| > 0
      invariant Lines(text) == done + Lines(rest)
      invariant out == out0 + Join(Kept(done, id))
      decreases |rest|
    {
      // getline
      var e := FirstIn(rest, "\n");
      var raw := rest[..e];
      var next := if e == |rest| then [] else rest[e + 1..];
      LinesStep(rest);
      ghost var done' := done + [raw];
      assert done + ([raw] + Lines(next)) == done' + Lines(next);
      // the comment search and erase
      var cut := FirstIn(raw, id);
      var line := raw;
      if cut < |line| {
        line := line[..cut];
      }
      assert line == Truncate(raw, id);
      KeptSnoc(done, raw, id);
      if |line| > 0 {
        assert Kept(done', id) == Kept(done, id) + [line];
        JoinSnoc(Kept(done, id), line);
        AppendAssoc(out0, Join(Kept(done, id)), line + "\n");
        out := out + (line + "\n");
      } else {
        assert Kept(done', id) == Kept(done, id);
      }
      done := done';
      rest := next;
    }
    assert done == Lines(text);
  }

  /** One getline: the lines of rest are its text up to the first newline, then the lines after it. */
  lemma {:induction false} LinesStep(rest: string)
    requires |rest| > 0
    ensures var e := FirstIn(rest, "\n");
      Lines(rest) == [rest[..e]] + Lines(if e == |rest| then [] else rest[e + 1..])
  {
    var e := FirstIn(rest, "\n");
    if e == |rest| {
      assert rest[..e] == rest;
      assert Lines([]) == [];
    } else {
      assert Lines(rest) == [rest[..e]] + Lines(rest[e + 1..]);
    }
  }

  lemma {:induction false} AppendAssoc(a: string, b: string, c: string)
    ensures a + (b + c) == (a + b) + c
  {
  }

  lemma {:induction false} KeptSnoc(lines: seq<string>, line: string, id: string)
    ensures Kept(lines + [line], id) == Kept(lines, id) + (if |Truncate(line, id)| > 0 then [Truncate(line, id)] else [])
  {
    assert (lines + [line])[..|lines|] == lines;
  }

  lemma {:induction false} JoinSnoc(lines: seq<string>, line: string)
    ensures Join(lines + [line]) == Join(lines) + (line + "\n")
  {
    assert (lines + [line])[..|lines|] == lines;
  }

  /** Two character strings without characters of cs joined together still have none. */
  lemma {:induction false} AvoidsConcat(a: string, b: string, cs: string)
    requires Avoids(a, cs) && Avoids(b, cs)
    ensures Avoids(a + b, cs)
  {
    forall k | 0 <= k < |a + b|
      ensures (a + b)[k] !in cs
    {
      if k < |a| {
        assert (a + b)[k] == a[k];
      } else {
        assert (a + b)[k] == b[k - |a|];
      }
    }
  }

  /** Joining lines without characters of id, when id holds no newline, gives a text without them. */
  lemma {:induction false} JoinAvoids(lines: seq<string>, id: string)
    requires '\n' !in id
    requires forall i :: 0 <= i < |lines| ==> Avoids(lines[i], id)
    ensures Avoids(Join(lines), id)
  {
    if |lines| > 0 {
      var front := lines[..|lines| - 1];
      assert forall i :: 0 <= i < |front| ==> front[i] == lines[i];
      JoinAvoids(front, id);
      AvoidsConcat(Join(front), lines[|lines| - 1], id);
      assert Avoids("\n", id);
      AvoidsConcat(Join(front) + lines[|lines| - 1], "\n", id);
    }
  }

  /** No character of id survives in the stripped text (as long as id holds no newline). */
  lemma {:induction false} StrippedHasNoComment(text: string, id: string)
    requires '\n' !in id
    ensures Avoids(Stripped(text, id), id)
  {
    KeptClean(Lines(text), id);
    JoinAvoids(Kept(Lines(text), id), id);
  }

  /** Lines that are non-empty and hold no character of id all pass through unchanged and in order. */
  lemma {:induction false} CleanLinesUnchanged(lines: seq<string>, id: string)
    requires forall i :: 0 <= i < |lines| ==> |lines[i]| > 0 && Avoids(lines[i], id)
    ensures Kept(lines, id) == lines
  {
    if |lines| > 0 {
      var front := lines[..|lines| - 1];
      assert forall i :: 0 <= i < |front| ==> front[i] == lines[i];
      CleanLinesUnchanged(front, id);
      assert lines == front + [lines[|lines| - 1]];
    }
  }

  /** Lines empty after truncation are dropped: lines made of comments alone contribute nothing. */
  lemma {:induction false} CommentLinesDropped(lines: seq<string>, id: string)
    requires forall i :: 0 <= i < |lines| ==> |lines[i]| == 0 || lines[i][0] in id
    ensures Kept(lines, id) == []
  {
    if |lines| > 0 {
      var front := lines[..|lines| - 1];
      assert forall i :: 0 <= i < |front| ==> front[i] == lines[i];
      CommentLinesDropped(front, id);
    }
  }

  /** With the default marker a single '/' already starts a comment: "a/b" becomes "a". */
  lemma {:induction false} SingleSlashCuts()
    ensures Stripped("a/b\nc", DefaultId) == "a\nc\n"
  {
    assert FirstIn("a/b\nc", "\n") == 3;
    assert ("a/b\nc")[..3] == "a/b";
    assert ("a/b\nc")[4..] == "c";
    assert FirstIn("c", "\n") == 1;
    assert Lines("c") == ["c"];
    assert Lines("a/b\nc") == ["a/b", "c"];
    assert Truncate("a/b", DefaultId) == "a";
    assert Truncate("c", DefaultId) == "c";
    var ls := ["a/b", "c"];
    assert ls[..1] == ["a/b"];
    assert ["a/b"][..0] == [];
    assert Kept(["a/b"], DefaultId) == ["a"];
    assert Kept(ls, DefaultId) == ["a", "c"];
    assert ["a", "c"][..1] == ["a"];
    assert ["a"][..0] == [];
    assert Join(["a"]) == "a\n";
  }
}
