/** The JavaScript string operations the planner uses: `trim()`, `split` on a
    character class, `join`, and the ECMAScript whitespace class behind both
    `trim` and the regular expression `\s`. */
module Text {

  /** ECMAScript WhiteSpace and LineTerminator code points: the characters that
      `String.prototype.trim` strips and that `/\s/` matches. */
  const Whitespace: set<char> := {
    '\t', '\n', '\U{000B}', '\U{000C}', '\r', ' ', '\U{00A0}', '\U{1680}',
    '\U{2000}', '\U{2001}', '\U{2002}', '\U{2003}', '\U{2004}', '\U{2005}',
    '\U{2006}', '\U{2007}', '\U{2008}', '\U{2009}', '\U{200A}',
    '\U{2028}', '\U{2029}', '\U{202F}', '\U{205F}', '\U{3000}', '\U{FEFF}'
  }

  predicate IsWhitespace(c: char)
  {
    c in Whitespace
  }

  predicate HasNone(s: string, chars: set<char>)
  {
    forall i :: 0 <= i < |s| ==> s[i] !in chars
  }

  /** How many characters of `ws` the string `s` starts with. */
  function Leading(s: string, ws: set<char>): (k: nat)
    ensures k <= |s|
    ensures forall i :: 0 <= i < k ==> s[i] in ws
    ensures k < |s| ==> s[k] !in ws
  {
    if s == [] || s[0] !in ws then 0
    else
      var k := Leading(s[1..], ws);
      assert forall i :: 1 <= i <= k ==> s[i] == s[1..][i - 1];
      1 + k
  }

  /** How many characters of `ws` the string `s` ends with. */
  function Trailing(s: string, ws: set<char>): (k: nat)
    ensures k <= |s|
    ensures forall i :: |s| - k <= i < |s| ==> s[i] in ws
    ensures k < |s| ==> s[|s| - k - 1] !in ws
  {
    if s == [] || s[|s| - 1] !in ws then 0
    else
      var k := Trailing(s[..|s| - 1], ws);
      assert forall i :: |s| - 1 - k <= i < |s| - 1 ==> s[i] == s[..|s| - 1][i];
      1 + k
  }

  /** `String.prototype.trim` with `ws` as the whitespace class (the planner
      always passes `Whitespace`). What it keeps is the piece of the input
      starting at the first non-whitespace character and ending at the last
      one; everything cut off around it is whitespace. */
  function Trim(s: string, ws: set<char>): (r: string)
    ensures Leading(s, ws) + |r| <= |s|
    ensures r == s[Leading(s, ws)..Leading(s, ws) + |r|]
    ensures r == [] || (r[0] !in ws && r[|r| - 1] !in ws)
    ensures forall i :: Leading(s, ws) + |r| <= i < |s| ==> s[i] in ws
  {
    var k := Leading(s, ws);
    if k == |s| then []
    else
      var t := Trailing(s, ws);
      assert k < |s| - t;
      s[k..|s| - t]
  }

  /** A string trims to "" exactly when it is all whitespace. */
  lemma TrimBlank(s: string, ws: set<char>)
    ensures Trim(s, ws) == [] <==> forall i :: 0 <= i < |s| ==> s[i] in ws
  {
  }

  /** Trimming twice is trimming once. */
  lemma TrimIdempotent(s: string, ws: set<char>)
    ensures Trim(Trim(s, ws), ws) == Trim(s, ws)
  {
    var r := Trim(s, ws);
    if r != [] {
      assert Leading(r, ws) == 0;
      assert Trailing(r, ws) == 0;
    }
  }

  /** `s.split(c)` where `c` is a one-character class: the pieces between
      separator characters, so a string with n separators gives n + 1 pieces
      (possibly empty). Defined from the right, the way `pop` reads it. */
  function Split(s: string, seps: set<char>): (r: seq<string>)
    ensures |r| >= 1
    decreases |s|
  {
    if s == [] then [""] else Step(Split(s[..|s| - 1], seps), s[|s| - 1], seps)
  }

  /** One more character after the pieces `r`: a separator opens a new empty
      piece, any other character extends the last piece. */
  function Step(r: seq<string>, c: char, seps: set<char>): (r': seq<string>)
    requires |r| >= 1
    ensures |r'| >= 1
  {
    if c in seps then r + [""] else r[..|r| - 1] + [r[|r| - 1] + [c]]
  }

  lemma SplitSnoc(s: string, c: char, seps: set<char>)
    ensures Split(s + [c], seps) == Step(Split(s, seps), c, seps)
  {
    assert (s + [c])[..|s + [c]| - 1] == s;
  }

  lemma StepAppend(a: seq<string>, b: seq<string>, c: char, seps: set<char>)
    requires |b| >= 1
    ensures Step(a + b, c, seps) == a + Step(b, c, seps)
  {
    if c !in seps {
      assert (a + b)[..|a + b| - 1] == a + b[..|b| - 1];
    }
  }

  /** `words.join(sep)`. */
  function Join(words: seq<string>, sep: string): string
    decreases |words|
  {
    if words == [] then ""
    else if |words| == 1 then words[0]
    else Join(words[..|words| - 1], sep) + sep + words[|words| - 1]
  }

  /** The string with every separator character replaced by a space. */
  function Spaced(s: string, seps: set<char>): (r: string)
    ensures |r| == |s|
    ensures forall i :: 0 <= i < |s| ==> r[i] == if s[i] in seps then ' ' else s[i]
  {
    seq(|s|, i requires 0 <= i < |s| => if s[i] in seps then ' ' else s[i])
  }

  /** A string without separators is a single piece. */
  lemma {:induction false} SplitNone(s: string, seps: set<char>)
    requires HasNone(s, seps)
    ensures Split(s, seps) == [s]
    decreases |s|
  {
    if s != [] {
      SplitNone(s[..|s| - 1], seps);
      assert s[..|s| - 1] + [s[|s| - 1]] == s;
    }
  }

  /** Splitting at a separator splits the pieces on either side independently. */
  lemma {:induction false} SplitAt(x: string, c: char, y: string, seps: set<char>)
    requires c in seps
    ensures Split(x + [c] + y, seps) == Split(x, seps) + Split(y, seps)
    decreases |y|
  {
    var xc := x + [c];
    if y == [] {
      assert xc + y == xc;
      SplitSnoc(x, c, seps);
    } else {
      var y', d := y[..|y| - 1], y[|y| - 1];
      assert xc + y == (xc + y') + [d];
      assert y == y' + [d];
      calc {
        Split(xc + y, seps);
        { SplitSnoc(xc + y', d, seps); }
        Step(Split(xc + y', seps), d, seps);
        { SplitAt(x, c, y', seps); }
        Step(Split(x, seps) + Split(y', seps), d, seps);
        { StepAppend(Split(x, seps), Split(y', seps), d, seps); }
        Split(x, seps) + Step(Split(y', seps), d, seps);
        { SplitSnoc(y', d, seps); }
        Split(x, seps) + Split(y, seps);
      }
    }
  }

  lemma JoinStep(r: seq<string>, c: char, seps: set<char>)
    requires |r| >= 1
    ensures Join(Step(r, c, seps), " ") == Join(r, " ") + [if c in seps then ' ' else c]
  {
    var r' := Step(r, c, seps);
    if c in seps {
      assert r'[..|r'| - 1] == r;
    } else if |r| > 1 {
      assert r'[..|r'| - 1] == r[..|r| - 1];
    }
  }

  lemma SpacedSnoc(s: string, c: char, seps: set<char>)
    ensures Spaced(s + [c], seps) == Spaced(s, seps) + [if c in seps then ' ' else c]
  {
  }

  /** Joining the pieces back with spaces gives the original string with each
      separator turned into a space. */
  lemma {:induction false} JoinSplit(s: string, seps: set<char>)
    ensures Join(Split(s, seps), " ") == Spaced(s, seps)
    decreases |s|
  {
    if s != [] {
      var p, c := s[..|s| - 1], s[|s| - 1];
      assert s == p + [c];
      JoinSplit(p, seps);
      SplitSnoc(p, c, seps);
      JoinStep(Split(p, seps), c, seps);
      SpacedSnoc(p, c, seps);
    }
  }
}
