/**
 * The status line of `sph` (cmds/sph/status.go): a line of parts, each holding its own text,
 * shown as the parts' texts joined by single spaces. Changing a part's text pushes the whole
 * line to the line's text setter, when the part belongs to a line and the line has a setter.
 *
 * The `TextSetter` interface is modelled by `Label`, a receiver that keeps the last text set;
 * `SetStatus` receives its text already formatted (`fmt.Sprintf` is not part of this model).
 */
module Status {

  /** The parts' texts, in order, joined by single spaces; no parts give the empty string. */
  function Joined(ts: seq<string>): (s: string)
    ensures |ts| == 1 ==> s == ts[0]
    decreases |ts|
  {
    if ts == [] then ""
    else if |ts| == 1 then ts[0]
    else ts[0] + " " + Joined(ts[1..])
  }

  /** Total length of the texts `ts`. */
  function Length(ts: seq<string>): nat
  {
    if ts == [] then 0 else |ts[0]| + Length(ts[1..])
  }

  /** The joined line holds every text and one space between each two neighbours. */
  lemma {:induction false} JoinedLength(ts: seq<string>)
    requires ts != []
    ensures |Joined(ts)| == Length(ts) + |ts| - 1
    decreases |ts|
  {
    if |ts| > 1 {
      JoinedLength(ts[1..]);
    }
  }

  /** Appending a text to a non-empty line adds one space and that text at the end. */
  lemma {:induction false} JoinedSnoc(ts: seq<string>, x: string)
    ensures Joined(ts + [x]) == if ts == [] then x else Joined(ts) + " " + x
    decreases |ts|
  {
    if |ts| == 1 {
      assert (ts + [x])[1..] == [x];
    } else if |ts| > 1 {
      assert (ts + [x])[1..] == ts[1..] + [x];
      JoinedSnoc(ts[1..], x);
    }
  }

  /** Text without a space in it. */
  predicate Word(w: string)
  {
    forall i | 0 <= i < |w| :: w[i] != ' '
  }

  /**
   * Splitting at every space, as `strings.Split(s, " ")` does: the pieces between the spaces,
   * so that the empty string is one empty piece.
   */
  function Split(s: string): (r: seq<string>)
    ensures |r| >= 1
    decreases |s|
  {
    if s == [] then [""]
    else
      var rest := Split(s[1..]);
      if s[0] == ' ' then [""] + rest else [[s[0]] + rest[0]] + rest[1..]
  }

  /** A word splits into itself. */
  lemma {:induction false} SplitWord(w: string)
    requires Word(w)
    ensures Split(w) == [w]
    decreases |w|
  {
    if w != [] {
      SplitWord(w[1..]);
      assert [w[0]] + w[1..] == w;
    }
  }

  /** A word followed by a space and the rest splits into the word and the rest's pieces. */
  lemma {:induction false} SplitAfterWord(w: string, rest: string)
    requires Word(w)
    ensures Split(w + " " + rest) == [w] + Split(rest)
    decreases |w|
  {
    if w == [] {
      assert ([] + " " + rest)[1..] == rest;
    } else {
      var s := w + " " + rest;
      assert s[1..] == w[1..] + " " + rest;
      SplitAfterWord(w[1..], rest);
      assert [w[0]] + w[1..] == w;
    }
  }

  /**
   * Splitting the joined line at its spaces gives back the parts' texts, when none of them holds
   * a space and there is at least one: the line is the texts separated by single spaces.
   */
  lemma {:induction false} SplitJoined(ts: seq<string>)
    requires ts != [] && forall i | 0 <= i < |ts| :: Word(ts[i])
    ensures Split(Joined(ts)) == ts
    decreases |ts|
  {
    if |ts| == 1 {
      SplitWord(ts[0]);
    } else {
      SplitJoined(ts[1..]);
      SplitAfterWord(ts[0], Joined(ts[1..]));
      assert [ts[0]] + ts[1..] == ts;
    }
  }

  /** The receiver of a line's text: `TextSetter.SetText` (cmds/sph/status.go:8-10) keeps the last text. */
  class Label {
    var text: string

    constructor()
      ensures text == ""
    {
      text := "";
    }

    method SetText(s: string)
      modifies this
      ensures text == s
    {
      text := s;
    }
  }

  /** `StatusPart` (cmds/sph/status.go:39-42): its text and the line it was added to, if any. */
  class StatusPart {
    var text: string
    var parent: StatusLine?

    constructor()
      ensures text == "" && parent == null
    {
      text := "";
      parent := null;
    }

    /** `StatusPart.String` (cmds/sph/status.go:51-53): the part's text. */
    function String(): (r: string)
      reads this
      ensures r == text
    {
      text
    }

    /**
     * `SetStatus` (cmds/sph/status.go:44-49): the new text, then the line, if the part has one,
     * passes its whole new text on to its setter.
     */
    method SetStatus(s: string)
      modifies this, if parent != null && parent.setter != null then {parent.setter} else {}
      ensures text == s && parent == old(parent)
      ensures parent != null && parent.setter != null ==> parent.setter.text == Joined(Texts(parent.parts))
    {
      text := s;
      if parent != null {
        parent.Changed();
      }
    }
  }

  /** The texts of `ps`, in order. */
  function Texts(ps: seq<StatusPart>): (r: seq<string>)
    reads set p | p in ps
    ensures |r| == |ps| && forall i | 0 <= i < |ps| :: r[i] == ps[i].text
  {
    seq(|ps|, i reads ps requires 0 <= i < |ps| => ps[i].text)
  }

  /** `StatusLine` (cmds/sph/status.go:12-15): its parts, in order, and where its text goes. */
  class StatusLine {
    var parts: seq<StatusPart>
    var setter: Label?

    constructor(setter: Label?)
      ensures parts == [] && this.setter == setter
    {
      parts := [];
      this.setter := setter;
    }

    /** `StatusLine.String` (cmds/sph/status.go:17-26): a space before every part but the first. */
    method String() returns (s: string)
      ensures s == Joined(Texts(parts))
    {
      s := "";
      var i := 0;
      while i < |parts|
        invariant 0 <= i <= |parts|
        invariant s == Joined(Texts(parts[..i]))
      {
        if i != 0 {
          s := s + " ";
        }
        s := s + parts[i].String();
        JoinedSnoc(Texts(parts[..i]), parts[i].text);
        assert Texts(parts[..i + 1]) == Texts(parts[..i]) + [parts[i].text];
        i := i + 1;
      }
      assert parts[..i] == parts;
    }

    /** `Add` (cmds/sph/status.go:28-31): the part goes at the end and belongs to this line. */
    method Add(p: StatusPart)
      modifies this, p
      ensures parts == old(parts) + [p] && p.parent == this
      ensures setter == old(setter) && p.text == old(p.text)
    {
      parts := parts + [p];
      p.parent := this;
    }

    /** `changed` (cmds/sph/status.go:33-37): the line's text goes to its setter, if it has one. */
    method Changed()
      modifies if setter != null then {setter} else {}
      ensures setter != null ==> setter.text == Joined(Texts(parts))
    {
      if setter != null {
        var s := String();
        setter.SetText(s);
      }
    }
  }

  /**
   * The line of the `sph` screen (cmds/sph/ui.go:17-28): build, delete and error parts added in
   * that order. A build total alone still leaves the separators of the two empty parts behind it
   * (`afterBuild`); a delete prompt then fills the middle. The setter `shown` is supplied here
   * for the sake of the scenario: `init` builds the line without assigning one.
   */
  method ScreenScenario(total: string, prompt: string) returns (shown: Label, line: StatusLine, afterBuild: string)
    ensures line.setter == shown && |line.parts| == 3
    ensures afterBuild == total + "  "
    ensures shown.text == total + " " + prompt + " "
  {
    shown := new Label();
    var build, delete, error;
    line, build, delete, error := ScreenLine(shown);
    build.SetStatus(total);
    TextsOfThree(line.parts);
    JoinedThree(total, "", "");
    afterBuild := shown.text;
    delete.SetStatus(prompt);
    TextsOfThree(line.parts);
    JoinedThree(total, prompt, "");
  }

  /** The screen's line: three fresh empty parts, added in order, writing to `shown`. */
  method ScreenLine(shown: Label) returns (line: StatusLine, build: StatusPart, delete: StatusPart, error: StatusPart)
    ensures fresh(line) && fresh(build) && fresh(delete) && fresh(error)
    ensures line.setter == shown && line.parts == [build, delete, error]
    ensures build != delete && delete != error && build != error
    ensures build.parent == line && delete.parent == line && error.parent == line
    ensures build.text == "" && delete.text == "" && error.text == ""
  {
    line := new StatusLine(shown);
    build := new StatusPart();
    delete := new StatusPart();
    error := new StatusPart();
    line.Add(build);
    line.Add(delete);
    line.Add(error);
  }

  lemma TextsOfThree(ps: seq<StatusPart>)
    requires |ps| == 3
    ensures Texts(ps) == [ps[0].text, ps[1].text, ps[2].text]
  {
  }

  lemma JoinedThree(a: string, b: string, c: string)
    ensures Joined([a, b, c]) == a + " " + b + " " + c
    ensures b == c == "" ==> Joined([a, b, c]) == a + "  "
  {
    assert [a, b, c][1..] == [b, c] && [b, c][1..] == [c];
  }
}
