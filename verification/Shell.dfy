/** The shell's line editor and history (programs/shell/buffer_logic.go), for ASCII input:
    one byte per character, so cursor and buffer length count the same thing. Terminal output is left out. */
module Shell {

  datatype Line = Line(buffer: string, cursor: int, history: seq<string>, pos: int)

  /** No index the editor uses can be out of range. */
  predicate Ok(s: Line)
  {
    0 <= s.cursor <= |s.buffer| && -1 <= s.pos && (s.pos >= 0 ==> s.pos <= |s.history| - 2)
  }

  predicate Ignored(key: string)
  {
    "\U{1b}[1;5" <= key || key == ";" ||
    key == "\U{1b}\U{7f}" || key == "\U{1b}w" || key == "\U{15}" || key == "\U{2}" || key == "\U{1b}"
  }

  function Recall(s: Line, history: seq<string>, pos: int): Line
    requires 0 <= pos < |history|
  {
    Line(history[pos], |history[pos]|, history, pos)
  }

  /** One step back in history; leaving the unfinished line files it at the end. */
  function PressUp(s: Line): Line
    requires Ok(s)
  {
    if |s.history| == 0 then s
    else if s.pos == -1 then Recall(s, s.history + [s.buffer], |s.history| - 1)
    else Recall(s, s.history[s.pos := s.buffer], if s.pos > 0 then s.pos - 1 else 0)
  }

  /** One step forward; past the newest command comes the unfinished line. */
  function PressDown(s: Line): Line
    requires Ok(s)
  {
    if s.pos == -1 then s
    else
      var h := s.history[s.pos := s.buffer];
      if s.pos == |h| - 2 then Recall(s, h, |h| - 1).(pos := -1) else Recall(s, h, s.pos + 1)
  }

  function PressEnter(s: Line): Line
  {
    var again := |s.history| > 0 && s.history[|s.history| - 1] == s.buffer;
    Line("", 0, if s.buffer != "" && !again then s.history + [s.buffer] else s.history, -1)
  }

  function PressDelete(s: Line): Line
    requires Ok(s)
  {
    if s.cursor == 0 then s
    else s.(buffer := s.buffer[..s.cursor - 1] + s.buffer[s.cursor..], cursor := s.cursor - 1)
  }

  function Type(s: Line, text: string): Line
    requires Ok(s)
  {
    s.(buffer := s.buffer[..s.cursor] + text + s.buffer[s.cursor..], cursor := s.cursor + |text|)
  }

  function Press(s: Line, key: string): (r: Line)
    requires Ok(s)
    ensures Ok(r)
  {
    if Ignored(key) then s
    else if key == "\r" then PressEnter(s)
    else if key == "\U{7f}" then PressDelete(s)
    else if key == "\U{1b}[C" then s.(cursor := if s.cursor != |s.buffer| then s.cursor + 1 else s.cursor)
    else if key == "\U{1b}[D" then s.(cursor := if s.cursor != 0 then s.cursor - 1 else s.cursor)
    else if key == "\U{1b}[A" then PressUp(s)
    else if key == "\U{1b}[B" then PressDown(s)
    else Type(s, if key == "\t" then "    " else key)
  }

  class Shell {
    var buffer: string
    var cursorPosition: int
    var history: seq<string>
    var posInHistory: int

    constructor ()
      ensures Now() == Line("", 0, [], -1)
    {
      buffer, cursorPosition, history, posInHistory := "", 0, [], -1;
    }

    function Now(): Line
      reads this
    {
      Line(buffer, cursorPosition, history, posInHistory)
    }

    /** (programs/shell/buffer_logic.go:11-191); the result is the line to run, empty for none. */
    method CanonicalLogic(receivedData: string) returns (line: string)
      requires Ok(Now())
      modifies this
      ensures Now() == Press(old(Now()), receivedData)
      ensures line == if receivedData == "\r" then old(buffer) else ""
    {
      hide PressUp, PressDown;
      line := "";
      if |receivedData| >= 5 && receivedData[..5] == "\U{1b}[1;5" {
        return;
      }
      if |receivedData| == 1 && receivedData[0] == ';' {
        return;
      }
      var preCursor := cursorPosition;
      if receivedData == "\U{7f}" {
        if cursorPosition > 0 {
          cursorPosition := cursorPosition - 1;
        }
      }
      if receivedData == "\r" {
        line := buffer;
        if line != "" {
          if |history| == 0 || history[|history| - 1] != line {
            history := history + [line];
          }
        }
        posInHistory := -1;
        cursorPosition := 0;
        buffer := "";
      } else if receivedData == "\U{7f}" {
        if preCursor > 0 && cursorPosition < |buffer| {
          buffer := buffer[..cursorPosition] + buffer[cursorPosition + 1..];
        }
      } else if receivedData == "\U{1b}[C" {
        if cursorPosition != |buffer| {
          cursorPosition := cursorPosition + 1;
        }
      } else if receivedData == "\U{1b}[D" {
        if cursorPosition != 0 {
          cursorPosition := cursorPosition - 1;
        }
      } else if receivedData == "\U{1b}[A" {
        MoveUp();
      } else if receivedData == "\U{1b}[B" {
        MoveDown();
      } else if receivedData == "\U{1b}\U{7f}" || receivedData == "\U{1b}w" || receivedData == "\U{15}" ||
        receivedData == "\U{2}" || receivedData == "\U{1b}" {
      } else {
        var index := cursorPosition;
        var data := receivedData;
        if data == "\t" {
          data := "    ";
        }
        buffer := buffer[..index] + data + buffer[index..];
        cursorPosition := cursorPosition + |data|;
      }
    }

    /** (programs/shell/buffer_logic.go:86-124) */
    method MoveUp()
      requires Ok(Now())
      modifies this
      ensures Now() == PressUp(old(Now()))
    {
      if |history| == 0 {
        return;
      }
      var added := false;
      if |history| > 0 {
        if posInHistory == -1 {
          history := history + [buffer];
          added := true;
        } else if posInHistory >= 0 && posInHistory < |history| {
          history := history[posInHistory := buffer];
        }
      }
      if posInHistory == -1 {
        var vale := |history| - 1;
        if added {
          vale := vale - 1;
        }
        posInHistory := vale;
        if posInHistory < 0 {
          // The history was not empty, so the entry before the new one exists.
          assert false;
        }
      } else {
        if posInHistory > 0 {
          posInHistory := posInHistory - 1;
        }
      }
      buffer := history[posInHistory];
      cursorPosition := |buffer|;
    }

    /** (programs/shell/buffer_logic.go:127-162) */
    method MoveDown()
      requires Ok(Now())
      modifies this
      ensures Now() == PressDown(old(Now()))
    {
      if |history| == 0 {
        return;
      }
      if posInHistory == -1 {
        return;
      }
      if posInHistory >= 0 && posInHistory < |history| {
        history := history[posInHistory := buffer];
      }
      if posInHistory == |history| - 2 {
        buffer := history[|history| - 1];
        posInHistory := -1;
        cursorPosition := |buffer|;
        return;
      }
      if posInHistory < |history| - 1 {
        posInHistory := posInHistory + 1;
      }
      buffer := history[posInHistory];
      cursorPosition := |buffer|;
    }
  }

  // ---------- over runs of keys ----------

  /** The state after a run of keys. Every prefix of every run satisfies Ok. */
  function Run(s: Line, keys: seq<string>): (r: Line)
    requires Ok(s)
    ensures Ok(r)
  {
    if keys == [] then s else Press(Run(s, keys[..|keys| - 1]), keys[|keys| - 1])
  }

  function Repeat(key: string, k: nat): (r: seq<string>)
    ensures |r| == k
  {
    seq(k, _ => key)
  }

  lemma RepeatMore(key: string, k: nat)
    ensures Repeat(key, k + 1)[..k] == Repeat(key, k) && Repeat(key, k + 1)[k] == key
  {
  }

  lemma {:induction false} RunConcat(s: Line, a: seq<string>, b: seq<string>)
    requires Ok(s)
    ensures Run(s, a + b) == Run(Run(s, a), b)
  {
    if b == [] {
      assert a + b == a;
    } else {
      assert (a + b)[..|a + b| - 1] == a + b[..|b| - 1];
      RunConcat(s, a, b[..|b| - 1]);
    }
  }

  /** k Ups from the unfinished line recall the k-th newest command, or the oldest. */
  lemma {:induction false} AfterUps(s: Line, k: nat)
    requires Ok(s) && s.pos == -1 && |s.history| > 0 && k > 0
    ensures var back := if k <= |s.history| then |s.history| - k else 0;
      Run(s, Repeat("\U{1b}[A", k)) == Recall(s, s.history + [s.buffer], back)
  {
    RepeatMore("\U{1b}[A", k - 1);
    if k == 1 {
      assert Run(s, Repeat("\U{1b}[A", 0)) == s;
    } else {
      AfterUps(s, k - 1);
    }
  }

  /** m Downs from a recalled, unedited command move m towards the unfinished line and stop there. */
  lemma {:induction false} AfterDowns(s: Line, h: seq<string>, at: nat, m: nat)
    requires at < |h| - 1 && s == Recall(s, h, at)
    ensures Run(s, Repeat("\U{1b}[B", m)) ==
      if at + m < |h| - 1 then Recall(s, h, at + m) else Recall(s, h, |h| - 1).(pos := -1)
  {
    if m > 0 {
      RepeatMore("\U{1b}[B", m - 1);
      AfterDowns(s, h, at, m - 1);
    } else {
      assert Repeat("\U{1b}[B", 0) == [];
    }
  }

  /** Any number of Ups followed by as many Downs restores the unfinished line, however short the history. */
  lemma UpsThenDownsRestore(s: Line, k: nat)
    requires Ok(s) && s.pos == -1
    ensures var r := Run(s, Repeat("\U{1b}[A", k) + Repeat("\U{1b}[B", k));
      && r.buffer == s.buffer && r.pos == -1
      && r.history == (if k == 0 || s.history == [] then s.history else s.history + [s.buffer])
      && (k > 0 && s.history != [] ==> r.cursor == |s.buffer|)
  {
    RunConcat(s, Repeat("\U{1b}[A", k), Repeat("\U{1b}[B", k));
    if k == 0 {
      assert Repeat("\U{1b}[A", 0) == [] && Repeat("\U{1b}[B", 0) == [];
    } else if s.history == [] {
      NoHistory(s, "\U{1b}[A", k);
      NoHistory(s, "\U{1b}[B", k);
    } else {
      AfterUps(s, k);
      var h := s.history + [s.buffer];
      AfterDowns(Run(s, Repeat("\U{1b}[A", k)), h, if k <= |s.history| then |s.history| - k else 0, k);
    }
  }

  lemma {:induction false} NoHistory(s: Line, key: string, k: nat)
    requires Ok(s) && s.history == [] && (key == "\U{1b}[A" || key == "\U{1b}[B")
    ensures Run(s, Repeat(key, k)) == s
  {
    if k > 0 {
      RepeatMore(key, k - 1);
      NoHistory(s, key, k - 1);
    } else {
      assert Repeat(key, 0) == [];
    }
  }

  /** Ups from a recalled, unedited command. */
  lemma {:induction false} UpsFromRecalled(s: Line, h: seq<string>, at: nat, k: nat)
    requires at < |h| - 1 && s == Recall(s, h, at)
    ensures Run(s, Repeat("\U{1b}[A", k)) == Recall(s, h, if k <= at then at - k else 0)
  {
    if k > 0 {
      RepeatMore("\U{1b}[A", k - 1);
      UpsFromRecalled(s, h, at, k - 1);
    } else {
      assert Repeat("\U{1b}[A", 0) == [];
    }
  }

  lemma FirstThenRest(s: Line, key: string, k: nat)
    requires Ok(s) && k > 0
    ensures Run(s, Repeat(key, k)) == Run(Press(s, key), Repeat(key, k - 1))
  {
    hide Press;
    assert Repeat(key, k) == [key] + Repeat(key, k - 1);
    RunConcat(s, [key], Repeat(key, k - 1));
    assert [key][..0] == [];
  }

  /** From an edited recalled line, k Ups and then k Downs end on that line, edit included, iff there are k entries
      before it; otherwise the Ups stop at the oldest entry and the Downs overshoot. */
  lemma EditSurvivesUpAndDownIff(s: Line, k: nat)
    requires Ok(s) && s.pos >= 0 && k > 0
    ensures var h, r := s.history[s.pos := s.buffer], Run(s, Repeat("\U{1b}[A", k) + Repeat("\U{1b}[B", k));
      && r == (if k <= s.pos then Recall(s, h, s.pos)
               else if k < |h| - 1 then Recall(s, h, k)
               else Recall(s, h, |h| - 1).(pos := -1))
      && (r.pos == s.pos <==> k <= s.pos)
      && (r.pos == s.pos ==> r.buffer == s.buffer)
  {
    hide Run, Repeat;
    var h := s.history[s.pos := s.buffer];
    var at := if s.pos > 0 then s.pos - 1 else 0;
    var one := Recall(s, h, at);
    assert Press(s, "\U{1b}[A") == one;
    FirstThenRest(s, "\U{1b}[A", k);
    UpsFromRecalled(one, h, at, k - 1);
    RunConcat(s, Repeat("\U{1b}[A", k), Repeat("\U{1b}[B", k));
    var top := if k <= s.pos then s.pos - k else 0;
    AfterDowns(Recall(s, h, top), h, top, k);
  }

  /** k Downs from an edited recalled line: the edit is filed on the first, and the unfinished line is where they
      stop. */
  lemma DownsFromEdited(s: Line, k: nat)
    requires Ok(s) && s.pos >= 0 && k > 0
    ensures var h := s.history[s.pos := s.buffer];
      Run(s, Repeat("\U{1b}[B", k)) ==
        if s.pos + k < |h| - 1 then Recall(s, h, s.pos + k) else Recall(s, h, |h| - 1).(pos := -1)
  {
    hide Run, Repeat;
    var h := s.history[s.pos := s.buffer];
    FirstThenRest(s, "\U{1b}[B", k);
    if s.pos == |h| - 2 {
      var last := Recall(s, h, |h| - 1).(pos := -1);
      assert Press(s, "\U{1b}[B") == last;
      StaysUnfinished(last, k - 1);
    } else {
      var one := Recall(s, h, s.pos + 1);
      assert Press(s, "\U{1b}[B") == one;
      AfterDowns(one, h, s.pos + 1, k - 1);
    }
  }

  /** k Ups once the Downs have reached the unfinished line. */
  lemma UpsFromUnfinished(h: seq<string>, k: nat)
    requires |h| > 0 && k > 0
    ensures var last := Line(h[|h| - 1], |h[|h| - 1]|, h, -1);
      Run(last, Repeat("\U{1b}[A", k)) == Recall(last, h + [h[|h| - 1]], if k <= |h| then |h| - k else 0)
  {
    hide Run, Repeat, Press;
    AfterUps(Line(h[|h| - 1], |h[|h| - 1]|, h, -1), k);
  }

  /** Where k Downs and then k Ups from an edited recalled line end. */
  lemma DownsThenUps(s: Line, h: seq<string>, k: nat)
    requires Ok(s) && s.pos >= 0 && k > 0 && h == s.history[s.pos := s.buffer]
    ensures Run(s, Repeat("\U{1b}[B", k) + Repeat("\U{1b}[A", k)) ==
      if s.pos + k < |h| - 1 then Recall(s, h, s.pos) else Recall(s, h + [h[|h| - 1]], if k <= |h| then |h| - k else 0)
  {
    hide Run, Repeat, Press;
    DownsFromEdited(s, k);
    RunConcat(s, Repeat("\U{1b}[B", k), Repeat("\U{1b}[A", k));
    if s.pos + k < |h| - 1 {
      UpsFromRecalled(Recall(s, h, s.pos + k), h, s.pos + k, k);
    } else {
      UpsFromUnfinished(h, k);
    }
  }

  /** From an edited recalled line with d steps to the unfinished one, k Downs and then k Ups end on that line iff the
      Downs stop short of the unfinished line, or the Ups, the first of which files the unfinished line once more,
      happen to reach it: k is d + 1, or it is the oldest entry. */
  lemma EditSurvivesDownAndUpIff(s: Line, k: nat)
    requires Ok(s) && s.pos >= 0 && k > 0
    ensures var d, r := |s.history| - 1 - s.pos, Run(s, Repeat("\U{1b}[B", k) + Repeat("\U{1b}[A", k));
      && (r.pos == s.pos <==> k < d || k == d + 1 || (s.pos == 0 && k > d))
      && (r.pos == s.pos ==> r.buffer == s.buffer)
  {
    hide Run, Repeat;
    DownsThenUps(s, s.history[s.pos := s.buffer], k);
  }

  lemma {:induction false} StaysUnfinished(s: Line, k: nat)
    requires Ok(s) && s.pos == -1
    ensures Run(s, Repeat("\U{1b}[B", k)) == s
  {
    if k > 0 {
      RepeatMore("\U{1b}[B", k - 1);
      StaysUnfinished(s, k - 1);
    } else {
      assert Repeat("\U{1b}[B", 0) == [];
    }
  }

  /** One step forward onto the unfinished line and one back does not return to the edited line ... */
  lemma DownUpLosesPlace()
    ensures var s := Line("bX", 2, ["a", "b", ""], 1);
      Ok(s) && Run(s, Repeat("\U{1b}[B", 1) + Repeat("\U{1b}[A", 1)) == Line("", 0, ["a", "bX", "", ""], 2)
  {
    var s := Line("bX", 2, ["a", "b", ""], 1);
    DownsThenUps(s, ["a", "bX", ""], 1);
  }

  /** ... and one step back from the oldest line and one forward ends on the next. */
  lemma UpDownLosesPlace()
    ensures var s := Line("aX", 2, ["a", "b", ""], 0);
      Ok(s) && Run(s, Repeat("\U{1b}[A", 1) + Repeat("\U{1b}[B", 1)) == Line("b", 1, ["aX", "b", ""], 1)
  {
    var s := Line("aX", 2, ["a", "b", ""], 0);
    EditSurvivesUpAndDownIff(s, 1);
  }

  /** Typing text and deleting as many characters is an undo, wherever the cursor stands. */
  lemma {:induction false} TypeThenDelete(s: Line, text: string)
    requires Ok(s)
    ensures Run(Type(s, text), Repeat("\U{7f}", |text|)) == s
  {
    if text == "" {
      assert Repeat("\U{7f}", 0) == [] && s.buffer[..s.cursor] + "" + s.buffer[s.cursor..] == s.buffer;
    } else {
      var k := |text| - 1;
      var one := Type(s, text);
      DeleteOne(s, text);
      RepeatMore("\U{7f}", k);
      assert Repeat("\U{7f}", k + 1) == ["\U{7f}"] + Repeat("\U{7f}", k);
      RunConcat(one, ["\U{7f}"], Repeat("\U{7f}", k));
      assert ["\U{7f}"][..0] == [];
      TypeThenDelete(s, text[..k]);
    }
  }

  lemma DeleteOne(s: Line, text: string)
    requires Ok(s) && text != ""
    ensures Press(Type(s, text), "\U{7f}") == Type(s, text[..|text| - 1])
  {
    var t := Type(s, text);
    assert t.buffer[..t.cursor - 1] == s.buffer[..s.cursor] + text[..|text| - 1];
    assert t.buffer[t.cursor..] == s.buffer[s.cursor..];
  }

  // ---------- key by key ----------

  /** k presses of the left arrow move the cursor k to the left, or to the start, and change nothing else. */
  lemma {:induction false} LeftArrows(s: Line, k: nat)
    requires Ok(s)
    ensures Run(s, Repeat("\U{1b}[D", k)) == s.(cursor := if k <= s.cursor then s.cursor - k else 0)
  {
    if k > 0 {
      RepeatMore("\U{1b}[D", k - 1);
      LeftArrows(s, k - 1);
    } else {
      assert Repeat("\U{1b}[D", 0) == [];
    }
  }

  /** k presses of the right arrow move it k to the right, or to the end. */
  lemma {:induction false} RightArrows(s: Line, k: nat)
    requires Ok(s)
    ensures Run(s, Repeat("\U{1b}[C", k)) ==
      s.(cursor := if s.cursor + k <= |s.buffer| then s.cursor + k else |s.buffer|)
  {
    if k > 0 {
      RepeatMore("\U{1b}[C", k - 1);
      RightArrows(s, k - 1);
    } else {
      assert Repeat("\U{1b}[C", 0) == [];
    }
  }

  /** k lefts and k rights end where they started iff there are k characters before the cursor; k rights and k lefts iff
      there are k characters behind it. */
  lemma ArrowsRestoreIff(s: Line, k: nat)
    requires Ok(s)
    ensures Run(s, Repeat("\U{1b}[D", k) + Repeat("\U{1b}[C", k)) == s <==> k <= s.cursor || |s.buffer| == s.cursor
    ensures Run(s, Repeat("\U{1b}[C", k) + Repeat("\U{1b}[D", k)) == s <==> s.cursor + k <= |s.buffer| || s.cursor == 0
  {
    hide Run, Repeat;
    RunConcat(s, Repeat("\U{1b}[D", k), Repeat("\U{1b}[C", k));
    RunConcat(s, Repeat("\U{1b}[C", k), Repeat("\U{1b}[D", k));
    LeftArrows(s, k);
    RightArrows(Run(s, Repeat("\U{1b}[D", k)), k);
    RightArrows(s, k);
    LeftArrows(Run(s, Repeat("\U{1b}[C", k)), k);
  }

  /** A character that no key gives a meaning of its own. */
  predicate Plain(c: char)
  {
    c !in {'\r', '\t', ';', '\U{7f}', '\U{1b}', '\U{15}', '\U{2}'}
  }

  function Singles(text: string): (r: seq<string>)
    ensures |r| == |text| && forall k :: 0 <= k < |text| ==> r[k] == [text[k]]
  {
    seq(|text|, k requires 0 <= k < |text| => [text[k]])
  }

  /** Typed character by character, text ends up at the cursor, in order, with the cursor behind it. */
  lemma {:induction false} TypedOneByOne(s: Line, text: string)
    requires Ok(s) && forall k :: 0 <= k < |text| ==> Plain(text[k])
    ensures Run(s, Singles(text)) ==
      Line(s.buffer[..s.cursor] + text + s.buffer[s.cursor..], s.cursor + |text|, s.history, s.pos)
  {
    hide Press;
    if text == "" {
      assert s.buffer[..s.cursor] + "" + s.buffer[s.cursor..] == s.buffer && Singles(text) == [];
    } else {
      var k := |text| - 1;
      assert Singles(text)[..k] == Singles(text[..k]) && Singles(text)[k] == [text[k]];
      TypedOneByOne(s, text[..k]);
      PlainIsTyped(Run(s, Singles(text[..k])), text[k]);
      TypedTwice(s.buffer, s.cursor, text[..k], text[k]);
      assert text == text[..k] + [text[k]];
    }
  }

  lemma TypedTwice(buffer: string, cursor: nat, text: string, c: char)
    requires cursor <= |buffer|
    ensures var b := buffer[..cursor] + text + buffer[cursor..];
      b[..cursor + |text|] + [c] + b[cursor + |text|..] == buffer[..cursor] + (text + [c]) + buffer[cursor..]
  {
    var b := buffer[..cursor] + text + buffer[cursor..];
    assert b[..cursor + |text|] == buffer[..cursor] + text && b[cursor + |text|..] == buffer[cursor..];
    assert buffer[..cursor] + text + [c] == buffer[..cursor] + (text + [c]);
  }

  lemma PlainIsTyped(s: Line, c: char)
    requires Ok(s) && Plain(c)
    ensures Press(s, [c]) ==
      Line(s.buffer[..s.cursor] + [c] + s.buffer[s.cursor..], s.cursor + 1, s.history, s.pos)
  {
    assert [c][0] == c;
  }

  /** Tab types four spaces. */
  lemma TabTypesSpaces(s: Line)
    requires Ok(s)
    ensures Press(s, "\t") == Run(s, Repeat(" ", 4))
  {
    assert Repeat(" ", 4) == Singles("    ");
    TypedOneByOne(s, "    ");
  }

  /** Delete takes away the character before the cursor, if there is one. */
  lemma DeleteTakesOne(s: Line)
    requires Ok(s)
    ensures var r := Press(s, "\U{7f}");
      if s.cursor == 0 then r == s
      else |r.buffer| == |s.buffer| - 1 && r.cursor == s.cursor - 1 && r.history == s.history && r.pos == s.pos &&
           forall k :: 0 <= k < |r.buffer| ==> r.buffer[k] == s.buffer[if k < s.cursor - 1 then k else k + 1]
  {
  }

  /** Keys that are left alone: Ctrl with an arrow, a lone semicolon, and a few control characters. */
  lemma KeysWithoutEffect(s: Line, rest: string)
    requires Ok(s)
    ensures Press(s, "\U{1b}[1;5" + rest) == s && Press(s, ";") == s && Press(s, "\U{1b}") == s
    ensures Press(s, "\U{1b}\U{7f}") == s && Press(s, "\U{1b}w") == s && Press(s, "\U{15}") == s
    ensures Press(s, "\U{2}") == s
  {
  }

  /** Two commands and an unfinished line of two characters: Up, an edit, Up, Down and Down. */
  lemma SomeKeys()
    ensures Press(Line("no", 1, ["a", "bc"], -1), "\U{1b}[A") == Line("bc", 2, ["a", "bc", "no"], 1)
    ensures Press(Line("bc", 2, ["a", "bc", "no"], 1), "d") == Line("bcd", 3, ["a", "bc", "no"], 1)
    ensures Press(Line("bcd", 3, ["a", "bc", "no"], 1), "\U{1b}[A") == Line("a", 1, ["a", "bcd", "no"], 0)
    ensures Press(Line("a", 1, ["a", "bcd", "no"], 0), "\U{1b}[B") == Line("bcd", 3, ["a", "bcd", "no"], 1)
    ensures Press(Line("bcd", 3, ["a", "bcd", "no"], 1), "\U{1b}[B") == Line("no", 2, ["a", "bcd", "no"], -1)
  {
    assert "d"[0] == 'd';
  }

  /** Enter clears the editor and files the line, unless it is empty or repeats the newest entry. */
  lemma EnterFilesOnce(s: Line)
    requires Ok(s)
    ensures var r, n := Press(s, "\r"), |s.history|;
      && r.buffer == "" && r.cursor == 0 && r.pos == -1 && s.history <= r.history
      && (r.history == s.history <==> s.buffer == "" || (n > 0 && s.history[n - 1] == s.buffer))
      && (r.history != s.history ==> |r.history| == n + 1 && r.history[n] == s.buffer)
  {
  }
}
