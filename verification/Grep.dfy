/** The regular expression matcher of user/grep.c against the language that a pattern denotes.
    A string ends where its sequence ends, in place of its null character. */
module Grep {

  /** What a pattern is made of: a character, `.`, and either of them with a star. */
  datatype Atom = Char(c: char) | Dot | Star(c: char) | DotStar

  /** `end` is whether the pattern ends in `$`. */
  datatype Pattern = Pattern(atoms: seq<Atom>, end: bool)

  function AtomOf(c: char, star: bool): (a: Atom) {
    if c == '.' then (if star then DotStar else Dot) else if star then Star(c) else Char(c)
  }

  /** A character followed by a star is one atom, whatever the character. `$` is special only
      as the last character and `^`, which match sees to, only as the first. */
  function Parse(re: string): (p: Pattern) {
    if re == "" then Pattern([], false)
    else if |re| > 1 && re[1] == '*' then
      var p := Parse(re[2..]);
      p.(atoms := [AtomOf(re[0], true)] + p.atoms)
    else if re == "$" then Pattern([], true)
    else
      var p := Parse(re[1..]);
      p.(atoms := [AtomOf(re[0], false)] + p.atoms)
  }

  // The language of a pattern.

  predicate Fits(a: Atom, piece: string) {
    match a
    case Char(c) => piece == [c]
    case Dot => |piece| == 1
    case Star(c) => forall i :: 0 <= i < |piece| ==> piece[i] == c
    case DotStar => true
  }

  function Join(pieces: seq<string>): (s: string) {
    if pieces == [] then "" else pieces[0] + Join(pieces[1..])
  }

  ghost predicate Splits(atoms: seq<Atom>, pieces: seq<string>, s: string) {
    |pieces| == |atoms| && Join(pieces) == s && forall i :: 0 <= i < |atoms| ==> Fits(atoms[i], pieces[i])
  }

  /** `s` can be cut into pieces that fit the atoms one by one. */
  ghost predicate Language(atoms: seq<Atom>, s: string) {
    exists pieces :: Splits(atoms, pieces, s)
  }

  /** Some beginning of the text is in the language, all of it if the pattern ends in `$`. */
  ghost predicate Begins(p: Pattern, text: string) {
    exists k :: 0 <= k <= |text| && Language(p.atoms, text[..k]) && (p.end ==> k == |text|)
  }

  /** What `re` means: under `^` the text begins with it, otherwise it does from some position on. */
  ghost predicate Means(re: string, text: string) {
    if re != "" && re[0] == '^' then Begins(Parse(re[1..]), text)
    else exists i :: 0 <= i <= |text| && Begins(Parse(re), text[i..])
  }

  // One atom at a time.

  lemma NoAtoms(s: string)
    ensures Language([], s) <==> s == ""
  {
    if s == "" {
      assert Splits([], [], s);
    }
  }

  lemma FirstAtom(a: Atom, rest: seq<Atom>, s: string, k: nat)
    requires k <= |s| && Fits(a, s[..k]) && Language(rest, s[k..])
    ensures Language([a] + rest, s)
  {
    var pieces :| Splits(rest, pieces, s[k..]);
    var all := [s[..k]] + pieces;
    assert all[1..] == pieces && s[..k] + s[k..] == s;
    assert Splits([a] + rest, all, s);
  }

  lemma SplitFirst(a: Atom, rest: seq<Atom>, s: string) returns (k: nat)
    requires Language([a] + rest, s)
    ensures k <= |s| && Fits(a, s[..k]) && Language(rest, s[k..])
  {
    var pieces :| Splits([a] + rest, pieces, s);
    k := |pieces[0]|;
    assert s[..k] == pieces[0] && s[k..] == Join(pieces[1..]);
    assert ([a] + rest)[0] == a;
    forall i | 0 <= i < |rest| ensures Fits(rest[i], pieces[1..][i]) {
      assert ([a] + rest)[i + 1] == rest[i];
    }
    assert Splits(rest, pieces[1..], s[k..]);
  }

  /** A text begins with a pattern when a piece at its start fits the first atom and the rest of
      the text begins with the rest of the pattern. */
  lemma BeginsFirst(a: Atom, p: Pattern, text: string, j: nat)
    requires j <= |text| && Fits(a, text[..j]) && Begins(p, text[j..])
    ensures Begins(Pattern([a] + p.atoms, p.end), text)
  {
    var k :| 0 <= k <= |text[j..]| && Language(p.atoms, text[j..][..k]) && (p.end ==> k == |text[j..]|);
    var s := text[..j + k];
    assert s[..j] == text[..j] && s[j..] == text[j..][..k];
    FirstAtom(a, p.atoms, s, j);
  }

  lemma BeginsRest(a: Atom, p: Pattern, text: string) returns (j: nat)
    requires Begins(Pattern([a] + p.atoms, p.end), text)
    ensures j <= |text| && Fits(a, text[..j]) && Begins(p, text[j..])
  {
    var k :| 0 <= k <= |text| && Language([a] + p.atoms, text[..k]) && (p.end ==> k == |text|);
    j := SplitFirst(a, p.atoms, text[..k]);
    assert text[..k][..j] == text[..j] && text[..k][j..] == text[j..][..k - j];
  }

  // The code.

  predicate Accepts(c: char, t: char) {
    c == '.' || c == t
  }

  lemma OneAtom(re: string, text: string)
    requires re != "" && re != "$" && !(|re| > 1 && re[1] == '*')
    ensures Begins(Parse(re), text) <==> text != "" && Accepts(re[0], text[0]) && Begins(Parse(re[1..]), text[1..])
  {
    var a := AtomOf(re[0], false);
    if Begins(Parse(re), text) {
      var j := BeginsRest(a, Parse(re[1..]), text);
      assert text[..j] == text[..1];
    }
    if text != "" && Accepts(re[0], text[0]) && Begins(Parse(re[1..]), text[1..]) {
      assert text[..1] == [text[0]];
      BeginsFirst(a, Parse(re[1..]), text, 1);
    }
  }

  /** The first `j` characters of the text may be taken by `c*`. */
  predicate Run(c: char, text: string, j: nat) {
    j <= |text| && forall i :: 0 <= i < j ==> Accepts(c, text[i])
  }

  ghost predicate StarBegins(c: char, re: string, text: string) {
    exists j: nat :: Run(c, text, j) && Begins(Parse(re), text[j..])
  }

  lemma StarAtom(re: string, text: string)
    requires |re| > 1 && re[1] == '*'
    ensures Begins(Parse(re), text) <==> StarBegins(re[0], re[2..], text)
  {
    var a := AtomOf(re[0], true);
    var p := Parse(re[2..]);
    if Begins(Parse(re), text) {
      var j := BeginsRest(a, p, text);
      assert forall i :: 0 <= i < j ==> text[..j][i] == text[i];
      assert Run(re[0], text, j);
    }
    if StarBegins(re[0], re[2..], text) {
      var j: nat :| Run(re[0], text, j) && Begins(p, text[j..]);
      BeginsFirst(a, p, text, j);
    }
  }

  lemma EmptyPattern(text: string)
    ensures Begins(Parse(""), text)
  {
    NoAtoms(text[..0]);
  }

  lemma EndPattern(text: string)
    ensures Begins(Parse("$"), text) <==> text == ""
  {
    forall k | 0 <= k <= |text| ensures Language([], text[..k]) <==> k == 0 {
      NoAtoms(text[..k]);
    }
    if text == "" {
      assert text[..0] == "";
      NoAtoms(text[..0]);
    }
  }

  /** matchhere: does the text begin with `re`? */
  method MatchHere(re: string, text: string) returns (r: bool)
    ensures r <==> Begins(Parse(re), text)
    decreases |re|, 0
  {
    if re == "" {
      EmptyPattern(text);
      return true;
    }
    if |re| > 1 && re[1] == '*' {
      StarAtom(re, text);
      r := MatchStar(re[0], re[2..], text);
      return;
    }
    if re[0] == '$' && |re| == 1 {
      EndPattern(text);
      return text == "";
    }
    OneAtom(re, text);
    if text != "" && (re[0] == '.' || re[0] == text[0]) {
      r := MatchHere(re[1..], text[1..]);
      return;
    }
    return false;
  }

  /** matchstar: does the text begin with `c*re`? */
  method MatchStar(c: char, re: string, text: string) returns (r: bool)
    ensures r <==> StarBegins(c, re, text)
    decreases |re|, 1
  {
    var i := 0;
    while true
      invariant 0 <= i <= |text| && Run(c, text, i)
      invariant forall j: nat :: j < i ==> !Begins(Parse(re), text[j..])
      decreases |text| - i
    {
      var here := MatchHere(re, text[i..]);
      if here {
        return true;
      }
      if i == |text| || !(text[i] == c || c == '.') {
        assert forall j: nat :: Run(c, text, j) ==> j <= i;
        return false;
      }
      i := i + 1;
    }
  }

  /** match: does the text contain `re`? */
  method Match(re: string, text: string) returns (r: bool)
    ensures r <==> Means(re, text)
  {
    if re != "" && re[0] == '^' {
      r := MatchHere(re[1..], text);
      return;
    }
    var i := 0;
    while true
      invariant 0 <= i <= |text|
      invariant forall j :: 0 <= j < i ==> !Begins(Parse(re), text[j..])
      decreases |text| - i
    {
      var here := MatchHere(re, text[i..]);
      if here {
        return true;
      }
      if i == |text| {
        return false;
      }
      i := i + 1;
    }
  }
}
