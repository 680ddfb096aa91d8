/** Dice rolls (src/roll.rs): `/roll NdM` rolls N dice with M faces. The
    random draws are an input: `choice(i)` is the draw behind the `i`-th
    die, which `gen_range(1..faces + 1)` turns into a face in [1, faces]. */
module Roll {
  import opened Common
  import opened Bot

  const NAME: string := "roll"

  /** One variation, which does nothing. */
  const VARIATION_DURATIONS: seq<nat> := [9999]

  /** Only the "/roll" trigger. */
  const CAPABILITIES: Capabilities := TriggersOnly(["/roll"])

  /** The answer to a request that cannot be understood. */
  const HELP: string := "roll <dices> : roll one or more dices where '<dice>' is formated like 1d20."

  /** Most dice, and most faces, a request may ask for. */
  const MAX_DICE: nat := 1000

  /** The dice word of a request: the second space-separated word of the
      text between the first "/roll" and the next one. */
  function DiceWord(request: string): (r: Option<string>)
    ensures r.Some? ==> Contains(request, "/roll")
  {
    var pieces := Split(request, "/roll");
    SplitSingleIffAbsent(request, "/roll");
    if |pieces| < 2 then None
    else
      var words := Split(pieces[1], " ");
      if |words| < 2 then None else Some(words[1])
  }

  /** The count and the faces of a request: the parts of the dice word
      before the first 'd' and between the first and the second 'd', each
      parsed as a `usize`, each between 1 and 1000. */
  function Request(request: string): (r: Option<(nat, nat)>)
    ensures r.Some? ==> 1 <= r.value.0 <= MAX_DICE && 1 <= r.value.1 <= MAX_DICE
    ensures r.Some? ==> DiceWord(request).Some?
  {
    match DiceWord(request)
    case None => None
    case Some(dices) =>
      var parts := Split(dices, "d");
      if |parts| < 2 then None
      else
        var count, faces := ParseUsize(parts[0]), ParseUsize(parts[1]);
        if count.None? || faces.None? then None
        else if count.value == 0 || count.value > MAX_DICE || faces.value == 0 || faces.value > MAX_DICE then None
        else Some((count.value, faces.value))
  }

  /** Without "/roll" there is nothing to roll. */
  lemma NoRollNoRequest(request: string)
    ensures !Contains(request, "/roll") ==> Request(request).None?
  {
  }

  /** A text that starts with a separator and holds no other occurrence of
      its first character splits into "" and the rest. */
  lemma SplitAfterLeading(sep: string, t: string)
    requires |sep| > 0
    requires forall i :: 0 <= i < |t| ==> t[i] != sep[0]
    ensures Split(sep + t, sep) == ["", t]
  {
    assert "" + sep == sep;
    SplitTwo("", sep, t);
  }

  /** After "/roll " and nothing else, a word without '/' or ' ' is the
      dice word. */
  lemma DiceWordAfterRoll(dices: string)
    requires forall i :: 0 <= i < |dices| ==> dices[i] != '/' && dices[i] != ' '
    ensures DiceWord("/roll " + dices) == Some(dices)
  {
    var t := " " + dices;
    assert "/roll " + dices == "/roll" + t;
    forall i | 0 <= i < |t| ensures t[i] != '/' {
      if i > 0 {
        assert t[i] == dices[i - 1];
      }
    }
    SplitAfterLeading("/roll", t);
    SplitAfterLeading(" ", dices);
  }

  /** A dice word made of two numbers around a 'd' holds no '/' or ' '. */
  lemma NumbersAroundD(c: string, f: string)
    requires forall i :: 0 <= i < |c| ==> IsDigit(c[i])
    requires forall i :: 0 <= i < |f| ==> IsDigit(f[i])
    ensures forall i :: 0 <= i < |c + "d" + f| ==> (c + "d" + f)[i] != '/' && (c + "d" + f)[i] != ' '
  {
    var dices := c + "d" + f;
    forall i | 0 <= i < |dices| ensures dices[i] != '/' && dices[i] != ' ' {
      if i < |c| {
        assert dices[i] == c[i];
      } else if i > |c| {
        assert dices[i] == f[i - |c| - 1];
      }
    }
  }

  /** The request written the documented way is understood. */
  lemma {:induction false} StandardRequest(count: nat, faces: nat)
    requires 1 <= count <= MAX_DICE && 1 <= faces <= MAX_DICE
    ensures Request("/roll " + NatToString(count) + "d" + NatToString(faces)) == Some((count, faces))
  {
    var c, f := NatToString(count), NatToString(faces);
    var dices := c + "d" + f;
    NumbersAroundD(c, f);
    DiceWordAfterRoll(dices);
    assert "/roll " + c + "d" + f == "/roll " + dices;
    SplitTwo(c, "d", f);
    ParseUsizeOfNatToString(count);
    ParseUsizeOfNatToString(faces);
  }

  /** The face shown by the `i`-th die. */
  function Face(faces: nat, choice: nat -> nat, i: nat): (r: nat)
    requires faces >= 1
    ensures 1 <= r <= faces
  {
    1 + choice(i) % faces
  }

  /** The faces of the first `n` dice. */
  function Rolls(n: nat, faces: nat, choice: nat -> nat): (r: seq<nat>)
    requires faces >= 1
    ensures |r| == n
    ensures forall k :: 0 <= k < n ==> r[k] == Face(faces, choice, k)
    decreases n
  {
    if n == 0 then [] else Rolls(n - 1, faces, choice) + [Face(faces, choice, n - 1)]
  }

  function Sum(rs: seq<nat>): nat
    decreases |rs|
  {
    if |rs| == 0 then 0 else Sum(rs[..|rs| - 1]) + rs[|rs| - 1]
  }

  /** The total of `n` dice with at most `faces` faces lies between `n` and
      `n * faces`. */
  lemma {:induction false} SumBounds(rs: seq<nat>, faces: nat)
    requires forall k :: 0 <= k < |rs| ==> 1 <= rs[k] <= faces
    ensures |rs| <= Sum(rs) <= |rs| * faces
    decreases |rs|
  {
    if |rs| > 0 {
      SumBounds(rs[..|rs| - 1], faces);
    }
  }

  /** The faces, each followed by '+'. */
  function Pluses(rs: seq<nat>): string
    decreases |rs|
  {
    if |rs| == 0 then "" else Pluses(rs[..|rs| - 1]) + NatToString(rs[|rs| - 1]) + "+"
  }

  /** The faces joined by '+'. */
  function JoinPlus(rs: seq<nat>): string
    requires |rs| > 0
    decreases |rs|
  {
    if |rs| == 1 then NatToString(rs[0]) else JoinPlus(rs[..|rs| - 1]) + "+" + NatToString(rs[|rs| - 1])
  }

  /** Writing "+" after every face is joining them by "+" and a last "+". */
  lemma {:induction false} PlusesIsJoinPlus(rs: seq<nat>)
    requires |rs| > 0
    ensures Pluses(rs) == JoinPlus(rs) + "+"
    decreases |rs|
  {
    if |rs| == 1 {
      assert rs[..0] == [];
    } else {
      PlusesIsJoinPlus(rs[..|rs| - 1]);
    }
  }

  /** One more die adds its face to the total and to the listing. */
  lemma RollsSnoc(n: nat, faces: nat, choice: nat -> nat)
    requires faces >= 1
    ensures Sum(Rolls(n + 1, faces, choice)) == Sum(Rolls(n, faces, choice)) + Face(faces, choice, n)
    ensures Pluses(Rolls(n + 1, faces, choice)) == Pluses(Rolls(n, faces, choice)) + NatToString(Face(faces, choice, n)) + "+"
  {
    var rs := Rolls(n, faces, choice);
    var rs' := Rolls(n + 1, faces, choice);
    assert rs'[..n] == rs;
  }

  /** The faces are listed only for 2 to 99 dice. */
  predicate ShowsFaces(count: nat)
  {
    1 < count < 100
  }

  /** The answer for `count` dice showing `rs`: "roll {count}d{faces}: ",
      then "(r1+...+rn) = " when the faces are listed, then the total. */
  function RollText(count: nat, faces: nat, rs: seq<nat>): string
    requires |rs| == count
  {
    "roll " + NatToString(count) + "d" + NatToString(faces) + ": "
      + (if ShowsFaces(count) then "(" + JoinPlus(rs) + ") = " else "")
      + NatToString(Sum(rs))
  }

  /** `gen`: `None` for a request that is not understood; otherwise the
      roll of `count` dice with `faces` faces, written as `RollText`. */
  method Gen(request: string, choice: nat -> nat) returns (r: Option<string>)
    ensures r.None? <==> Request(request).None?
    ensures r.Some? ==> var (count, faces) := Request(request).value;
      r.value == RollText(count, faces, Rolls(count, faces, choice))
  {
    var req := Request(request);
    if req.None? {
      return None;
    }
    var output := Throw(req.value.0, req.value.1, choice);
    r := Some(output);
  }

  /** Popping the last character of `p + s + "+"` leaves `p + s`. */
  lemma DropLastPlus(p: string, s: string)
    ensures (p + (s + "+"))[..|p| + |s|] == p + s
  {
  }

  /** The end of `gen` once the request is understood: the header, the
      dice, then the total. When the faces are listed each one is written
      with a '+' after it and the last '+' is popped. */
  method Throw(count: nat, faces: nat, choice: nat -> nat) returns (output: string)
    requires 1 <= count && 1 <= faces
    ensures output == RollText(count, faces, Rolls(count, faces, choice))
  {
    var shown := count > 1 && count < 100;
    var header := "roll " + NatToString(count) + "d" + NatToString(faces) + ": ";
    var listed, total := RollDice(shown, count, faces, choice);
    ghost var rolls := Rolls(count, faces, choice);
    // the part between the header and the total, with its last '+' popped
    var faced := "";
    if shown {
      faced := "(" + listed;
      PlusesIsJoinPlus(rolls);
      DropLastPlus("(", JoinPlus(rolls));
      faced := faced[..|faced| - 1];
      faced := faced + ") = ";
    }
    output := header + faced + NatToString(total);
  }

  /** The loop of `gen`: one face per die, each written with a '+' after it
      when the faces are listed, and summed. */
  method RollDice(shown: bool, count: nat, faces: nat, choice: nat -> nat)
    returns (listed: string, total: nat)
    requires 1 <= faces
    ensures total == Sum(Rolls(count, faces, choice))
    ensures shown ==> listed == Pluses(Rolls(count, faces, choice))
  {
    listed, total := "", 0;
    for i := 0 to count
      invariant total == Sum(Rolls(i, faces, choice))
      invariant shown ==> listed == Pluses(Rolls(i, faces, choice))
    {
      var roll := Face(faces, choice, i);
      if shown {
        listed := listed + NatToString(roll) + "+";
      }
      total := total + roll;
      RollsSnoc(i, faces, choice);
    }
  }

  /** `trigger`: always exactly one answer, the roll or else the help text. */
  method Trigger(message: string, choice: nat -> nat) returns (r: Option<seq<string>>)
    ensures r.Some? && |r.value| == 1
    ensures Request(message).None? ==> r.value[0] == HELP
    ensures Request(message).Some? ==> var (count, faces) := Request(message).value;
      r.value[0] == RollText(count, faces, Rolls(count, faces, choice))
  {
    var g := Gen(message, choice);
    var response := if g.Some? then g.value else HELP;
    r := Some([response]);
  }

  /** `run` never says anything. */
  method Run(variation: nat) returns (r: Option<seq<string>>)
    ensures r.None?
  {
    r := None;
  }
}
