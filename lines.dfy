/**
  * Python's `"\n".join(items)` and its inverse `text.split("\n")`. The channel
  * listing reply is built with the first; the second shows that nothing is lost.
  */
module Lines {

  predicate NoNewline(s: string) {
    '\n' !in s
  }

  predicate AllNoNewline(items: seq<string>) {
    forall i :: 0 <= i < |items| ==> NoNewline(items[i])
  }

  /**
    * `"\n".join(items)`: the items with one newline between neighbours, so
    * single-line items give a text with exactly one newline fewer than items.
    */
  function Join(items: seq<string>): (text: string)
    ensures |items| > 0 && AllNoNewline(items) ==> multiset(text)['\n'] == |items| - 1
  {
    if |items| == 0 then ""
    else if |items| == 1 then items[0]
    else items[0] + "\n" + Join(items[1..])
  }

  /** `text.split("\n")`: the pieces between newlines; never empty. */
  function Split(text: string): (pieces: seq<string>)
    ensures |pieces| > 0
    ensures AllNoNewline(pieces)
  {
    if text == [] then [""]
    else
      var rest := Split(text[1..]);
      if text[0] == '\n' then [""] + rest
      else [[text[0]] + rest[0]] + rest[1..]
  }

  lemma {:induction false} SplitSingle(line: string)
    requires NoNewline(line)
    ensures Split(line) == [line]
  {
    if line != [] {
      assert NoNewline(line[1..]) by {
        forall k | 0 <= k < |line[1..]| ensures line[1..][k] != '\n' {
          assert line[1..][k] == line[k + 1];
        }
      }
      SplitSingle(line[1..]);
      assert [line[0]] + line[1..] == line;
    }
  }

  lemma {:induction false} SplitAfterLine(line: string, tail: string)
    requires NoNewline(line)
    ensures Split(line + "\n" + tail) == [line] + Split(tail)
  {
    if line == [] {
      assert line + "\n" + tail == "\n" + tail;
      assert ("\n" + tail)[1..] == tail;
    } else {
      var t := line + "\n" + tail;
      assert t[0] == line[0];
      assert t[1..] == line[1..] + "\n" + tail;
      assert NoNewline(line[1..]) by {
        forall k | 0 <= k < |line[1..]| ensures line[1..][k] != '\n' {
          assert line[1..][k] == line[k + 1];
        }
      }
      SplitAfterLine(line[1..], tail);
      assert [line[0]] + line[1..] == line;
    }
  }

  /** Splitting the joined text at newlines gives back the items, when none contains a newline. */
  lemma {:induction false} SplitJoin(items: seq<string>)
    requires |items| > 0 && AllNoNewline(items)
    ensures Split(Join(items)) == items
  {
    if |items| == 1 {
      SplitSingle(items[0]);
    } else {
      SplitAfterLine(items[0], Join(items[1..]));
      SplitJoin(items[1..]);
    }
  }

  /** Putting one more character in front of the first item puts it in front of the joined text. */
  lemma {:induction false} JoinAfterChar(c: char, pieces: seq<string>)
    requires |pieces| > 0
    ensures Join([[c] + pieces[0]] + pieces[1..]) == [c] + Join(pieces)
  {
  }

  /** Splitting a text that starts with a newline: an empty first piece, then the pieces of the rest. */
  lemma SplitAfterNewline(text: string)
    requires text != [] && text[0] == '\n'
    ensures Join(Split(text)) == "\n" + Join(Split(text[1..]))
  {
  }

  /** Splitting a text that starts with another character: that character leads the first piece. */
  lemma SplitAfterChar(text: string)
    requires text != [] && text[0] != '\n'
    ensures Join(Split(text)) == [text[0]] + Join(Split(text[1..]))
  {
    var rest := Split(text[1..]);
    assert Split(text) == [[text[0]] + rest[0]] + rest[1..];
    JoinAfterChar(text[0], rest);
  }

  /** Joining the pieces of a split restores the text: `"\n".join(t.split("\n")) == t`. */
  lemma {:induction false} JoinSplit(text: string)
    ensures Join(Split(text)) == text
  {
    if text != [] {
      JoinSplit(text[1..]);
      if text[0] == '\n' {
        SplitAfterNewline(text);
      } else {
        SplitAfterChar(text);
      }
      assert text == [text[0]] + text[1..];
    }
  }
}
