/**
 * The regular expressions the repository passes to `re.search`, in the
 * small syntax they are written in: an optional leading `^` anchor, `.` for
 * any character but a newline, `[c]?` for an optional character, and every
 * other character standing for itself.
 */
module Patterns {
  import opened Strings

  datatype Atom = Char(c: char) | AnyChar | OptionalChar(c: char)

  /** A compiled pattern: `anchored` when it started with `^`. */
  datatype Pattern = Pattern(anchored: bool, atoms: seq<Atom>)

  function CompileAtoms(src: string): seq<Atom>
    decreases |src|
  {
    if src == [] then []
    else if |src| >= 4 && src[0] == '[' && src[2] == ']' && src[3] == '?' then
      [OptionalChar(src[1])] + CompileAtoms(src[4..])
    else if src[0] == '.' then [AnyChar] + CompileAtoms(src[1..])
    else [Char(src[0])] + CompileAtoms(src[1..])
  }

  function Compile(src: string): Pattern {
    if |src| > 0 && src[0] == '^' then Pattern(true, CompileAtoms(src[1..]))
    else Pattern(false, CompileAtoms(src))
  }

  /** The atoms match some prefix of `s`. */
  predicate MatchesPrefix(s: string, atoms: seq<Atom>)
    decreases |atoms|
  {
    if atoms == [] then true
    else match atoms[0]
      case Char(c) => |s| > 0 && s[0] == c && MatchesPrefix(s[1..], atoms[1..])
      case AnyChar => |s| > 0 && s[0] != '\n' && MatchesPrefix(s[1..], atoms[1..])
      case OptionalChar(c) =>
        (|s| > 0 && s[0] == c && MatchesPrefix(s[1..], atoms[1..])) || MatchesPrefix(s, atoms[1..])
  }

  /** The atoms match starting at some position of `s`, the end included. */
  predicate MatchesSomewhere(s: string, atoms: seq<Atom>)
    decreases |s|
  {
    MatchesPrefix(s, atoms) || (|s| > 0 && MatchesSomewhere(s[1..], atoms))
  }

  /** `re.search(src, s) is not None` */
  predicate Search(src: string, s: string) {
    var p := Compile(src);
    if p.anchored then MatchesPrefix(s, p.atoms) else MatchesSomewhere(s, p.atoms)
  }

  /** A pattern source with no `.` and no `[`: every character stands for itself. */
  predicate IsPlain(src: string) {
    forall i :: 0 <= i < |src| ==> src[i] != '.' && src[i] != '['
  }

  /** Plain texts joined together are plain. */
  lemma PlainConcat(a: string, b: string)
    requires IsPlain(a) && IsPlain(b)
    ensures IsPlain(a + b)
  {
    forall i | 0 <= i < |a + b|
      ensures (a + b)[i] != '.' && (a + b)[i] != '['
    {
      if i >= |a| {
        assert (a + b)[i] == b[i - |a|];
      }
    }
  }

  lemma {:induction false} PlainPrefix(src: string, s: string)
    requires IsPlain(src)
    ensures MatchesPrefix(s, CompileAtoms(src)) <==> StartsWith(s, src)
    decreases |src|
  {
    if src != [] {
      PlainPrefix(src[1..], if |s| > 0 then s[1..] else s);
      if |s| > 0 && |src| <= |s| {
        assert s[..|src|] == [s[0]] + s[1..][..|src| - 1];
        assert src == [src[0]] + src[1..];
      }
    }
  }

  lemma {:induction false} PlainSomewhere(src: string, s: string)
    requires IsPlain(src)
    ensures MatchesSomewhere(s, CompileAtoms(src)) <==> Contains(s, src)
    decreases |s|
  {
    PlainPrefix(src, s);
    if s != [] {
      PlainSomewhere(src, s[1..]);
    }
  }

  /** A `^`-anchored plain pattern matches exactly the strings that start with its text. */
  lemma AnchoredPlainSearch(src: string, s: string)
    requires |src| > 0 && src[0] == '^' && IsPlain(src[1..])
    ensures Search(src, s) <==> StartsWith(s, src[1..])
  {
    PlainPrefix(src[1..], s);
  }

  /** An unanchored plain pattern matches exactly the strings that contain its text. */
  lemma UnanchoredPlainSearch(src: string, s: string)
    requires (|src| > 0 ==> src[0] != '^') && IsPlain(src)
    ensures Search(src, s) <==> Contains(s, src)
  {
    PlainSomewhere(src, s);
  }

  /**
   * A `^`-anchored pattern whose only special character is a final `.`
   * matches the strings that start with the text before the `.` and go on
   * with one more character that is not a newline.
   */
  lemma AnchoredWildcardSearch(src: string, s: string)
    requires |src| >= 2 && src[0] == '^' && src[|src| - 1] == '.' && IsPlain(src[1..|src| - 1])
    ensures var lit := src[1..|src| - 1];
      Search(src, s) <==> StartsWith(s, lit) && |s| > |lit| && s[|lit|] != '\n'
  {
    var lit := src[1..|src| - 1];
    AtomsOfLiteralThenDot(lit);
    assert src[1..] == lit + ".";
    LiteralThenAny(lit, s);
  }

  lemma {:induction false} AtomsOfLiteralThenDot(lit: string)
    requires IsPlain(lit)
    ensures CompileAtoms(lit + ".") == CompileAtoms(lit) + [AnyChar]
    decreases |lit|
  {
    if lit == [] {
      assert lit + "." == ".";
    } else {
      assert (lit + ".")[1..] == lit[1..] + ".";
      AtomsOfLiteralThenDot(lit[1..]);
    }
  }

  lemma {:induction false} LiteralThenAny(lit: string, s: string)
    requires IsPlain(lit)
    ensures MatchesPrefix(s, CompileAtoms(lit) + [AnyChar])
        <==> StartsWith(s, lit) && |s| > |lit| && s[|lit|] != '\n'
    decreases |lit|
  {
    if lit == [] {
      assert CompileAtoms(lit) + [AnyChar] == [AnyChar];
    } else {
      var atoms := CompileAtoms(lit) + [AnyChar];
      assert atoms[0] == Char(lit[0]);
      assert atoms[1..] == CompileAtoms(lit[1..]) + [AnyChar];
      if |s| > 0 {
        LiteralThenAny(lit[1..], s[1..]);
        if |lit| <= |s| {
          assert s[..|lit|] == [s[0]] + s[1..][..|lit| - 1];
          assert lit == [lit[0]] + lit[1..];
        }
      }
    }
  }

  /** The pattern `SED[-]?ML` matches exactly the strings containing `SEDML` or `SED-ML`. */
  lemma SedmlSearch(s: string)
    ensures Search("SED[-]?ML", s) <==> Contains(s, "SEDML") || Contains(s, "SED-ML")
  {
    var atoms := [Char('S'), Char('E'), Char('D'), OptionalChar('-'), Char('M'), Char('L')];
    CompileSedml();
    SedmlSomewhere(s, atoms);
  }

  lemma CompileSedml()
    ensures Compile("SED[-]?ML").atoms
      == [Char('S'), Char('E'), Char('D'), OptionalChar('-'), Char('M'), Char('L')]
    ensures !Compile("SED[-]?ML").anchored
  {
    var src := "SED[-]?ML";
    assert src[1..] == "ED[-]?ML";
    assert src[1..][1..] == "D[-]?ML";
    assert src[1..][1..][1..] == "[-]?ML";
    assert src[1..][1..][1..][4..] == "ML";
    assert "ML"[1..] == "L";
    assert "L"[1..] == "";
  }

  lemma MlPrefix(t: string)
    ensures MatchesPrefix(t, [Char('M'), Char('L')]) <==> |t| >= 2 && t[0] == 'M' && t[1] == 'L'
  {
    assert [Char('M'), Char('L')][1..] == [Char('L')];
    assert [Char('L')][1..] == [];
  }

  lemma CharPrefix(s: string, c: char, rest: seq<Atom>)
    ensures MatchesPrefix(s, [Char(c)] + rest) <==> |s| > 0 && s[0] == c && MatchesPrefix(s[1..], rest)
  {
    assert ([Char(c)] + rest)[1..] == rest;
  }

  lemma OptMlPrefix(t: string)
    ensures MatchesPrefix(t, [OptionalChar('-'), Char('M'), Char('L')])
      <==> (|t| >= 3 && t[0] == '-' && t[1] == 'M' && t[2] == 'L') || (|t| >= 2 && t[0] == 'M' && t[1] == 'L')
  {
    assert [OptionalChar('-'), Char('M'), Char('L')][1..] == [Char('M'), Char('L')];
    MlPrefix(t);
    if |t| >= 1 {
      MlPrefix(t[1..]);
    }
  }

  lemma SedPrefix(s: string, atoms: seq<Atom>)
    requires atoms == [Char('S'), Char('E'), Char('D'), OptionalChar('-'), Char('M'), Char('L')]
    ensures MatchesPrefix(s, atoms)
      <==> (|s| >= 3 && s[0] == 'S' && s[1] == 'E' && s[2] == 'D'
            && MatchesPrefix(s[3..], [OptionalChar('-'), Char('M'), Char('L')]))
  {
    var opt := [OptionalChar('-'), Char('M'), Char('L')];
    assert atoms == [Char('S')] + ([Char('E')] + ([Char('D')] + opt));
    CharPrefix(s, 'S', [Char('E')] + ([Char('D')] + opt));
    if |s| >= 1 {
      CharPrefix(s[1..], 'E', [Char('D')] + opt);
      if |s| >= 2 {
        CharPrefix(s[1..][1..], 'D', opt);
        assert s[1..][1..] == s[2..];
        if |s| >= 3 {
          assert s[2..][1..] == s[3..];
        }
      }
    }
  }

  lemma StartsSedml(s: string)
    ensures StartsWith(s, "SEDML")
      <==> |s| >= 5 && s[0] == 'S' && s[1] == 'E' && s[2] == 'D' && s[3] == 'M' && s[4] == 'L'
  {
    if |s| >= 5 && s[0] == 'S' && s[1] == 'E' && s[2] == 'D' && s[3] == 'M' && s[4] == 'L' {
      assert s[..5] == "SEDML";
    }
  }

  lemma StartsSedDashMl(s: string)
    ensures StartsWith(s, "SED-ML")
      <==> |s| >= 6 && s[0] == 'S' && s[1] == 'E' && s[2] == 'D' && s[3] == '-' && s[4] == 'M' && s[5] == 'L'
  {
    if |s| >= 6 && s[0] == 'S' && s[1] == 'E' && s[2] == 'D' && s[3] == '-' && s[4] == 'M' && s[5] == 'L' {
      assert s[..6] == "SED-ML";
    }
  }

  lemma SedmlPrefix(s: string, atoms: seq<Atom>)
    requires atoms == [Char('S'), Char('E'), Char('D'), OptionalChar('-'), Char('M'), Char('L')]
    ensures MatchesPrefix(s, atoms) <==> StartsWith(s, "SEDML") || StartsWith(s, "SED-ML")
  {
    SedPrefix(s, atoms);
    StartsSedml(s);
    StartsSedDashMl(s);
    if |s| >= 3 {
      OptMlPrefix(s[3..]);
    }
  }

  lemma {:induction false} SedmlSomewhere(s: string, atoms: seq<Atom>)
    requires atoms == [Char('S'), Char('E'), Char('D'), OptionalChar('-'), Char('M'), Char('L')]
    ensures MatchesSomewhere(s, atoms) <==> Contains(s, "SEDML") || Contains(s, "SED-ML")
    decreases |s|
  {
    SedmlPrefix(s, atoms);
    if s != [] {
      SedmlSomewhere(s[1..], atoms);
    }
  }

  /** No atom can consume the character `c`. */
  predicate NeverConsumes(atoms: seq<Atom>, c: char) {
    forall i :: 0 <= i < |atoms| ==> atoms[i] != AnyChar && atoms[i] != Char(c) && atoms[i] != OptionalChar(c)
  }

  /** A prefix match carries over to any extension of the string. */
  lemma {:induction false} PrefixMatchExtends(s: string, t: string, atoms: seq<Atom>)
    requires MatchesPrefix(s, atoms)
    ensures MatchesPrefix(s + t, atoms)
    decreases |atoms|
  {
    if atoms != [] {
      if |s| > 0 {
        assert (s + t)[0] == s[0];
        assert (s + t)[1..] == s[1..] + t;
      }
      match atoms[0]
      case Char(c) => PrefixMatchExtends(s[1..], t, atoms[1..]);
      case AnyChar => PrefixMatchExtends(s[1..], t, atoms[1..]);
      case OptionalChar(c) =>
        if |s| > 0 && s[0] == c && MatchesPrefix(s[1..], atoms[1..]) {
          PrefixMatchExtends(s[1..], t, atoms[1..]);
        } else {
          PrefixMatchExtends(s, t, atoms[1..]);
        }
    }
  }

  /** A match that cannot cross the character `c` stays inside the text before it. */
  lemma {:induction false} PrefixMatchStopsAt(a: string, c: char, b: string, atoms: seq<Atom>)
    requires NeverConsumes(atoms, c)
    requires MatchesPrefix(a + [c] + b, atoms)
    ensures MatchesPrefix(a, atoms)
    decreases |atoms|
  {
    if atoms != [] {
      var s := a + [c] + b;
      assert NeverConsumes(atoms[1..], c) by {
        assert forall i :: 0 <= i < |atoms[1..]| ==> atoms[1..][i] == atoms[i + 1];
      }
      assert s[0] == (if |a| > 0 then a[0] else c);
      if |a| > 0 {
        assert s[1..] == a[1..] + [c] + b;
      }
      match atoms[0]
      case Char(d) =>
        PrefixMatchStopsAt(a[1..], c, b, atoms[1..]);
      case AnyChar =>
        assert false;
      case OptionalChar(d) =>
        if |s| > 0 && s[0] == d && MatchesPrefix(s[1..], atoms[1..]) {
          PrefixMatchStopsAt(a[1..], c, b, atoms[1..]);
        } else {
          PrefixMatchStopsAt(a, c, b, atoms[1..]);
        }
    }
  }

  /**
   * An unanchored search over `a + [c] + b`, with a pattern that cannot
   * consume `c`, matches exactly when it matches in `a` or in `b`: no match
   * can span the joining character.
   */
  lemma {:induction false} SomewhereAcrossJoiner(a: string, c: char, b: string, atoms: seq<Atom>)
    requires NeverConsumes(atoms, c)
    ensures MatchesSomewhere(a + [c] + b, atoms) <==> MatchesSomewhere(a, atoms) || MatchesSomewhere(b, atoms)
    decreases |a|
  {
    var s := a + [c] + b;
    if a == [] {
      assert s == [c] + b;
      assert s[1..] == b;
      if MatchesPrefix(s, atoms) {
        assert a + [c] + b == s;
        PrefixMatchStopsAt(a, c, b, atoms);
        PrefixMatchExtends(a, b, atoms);
        assert a + b == b;
      }
      if MatchesPrefix(a, atoms) {
        PrefixMatchExtends(a, [c] + b, atoms);
        assert a + ([c] + b) == s;
      }
    } else {
      assert s[1..] == a[1..] + [c] + b;
      SomewhereAcrossJoiner(a[1..], c, b, atoms);
      if MatchesSomewhere(s, atoms) {
        if MatchesPrefix(s, atoms) {
          PrefixMatchStopsAt(a, c, b, atoms);
        }
        assert MatchesSomewhere(a, atoms) || MatchesSomewhere(b, atoms);
      }
      if MatchesSomewhere(a, atoms) {
        if MatchesPrefix(a, atoms) {
          PrefixMatchExtends(a, [c] + b, atoms);
          assert a + ([c] + b) == s;
        } else {
          assert MatchesSomewhere(a[1..], atoms);
          assert MatchesSomewhere(s[1..], atoms);
        }
        assert MatchesSomewhere(s, atoms);
      }
      if MatchesSomewhere(b, atoms) {
        assert MatchesSomewhere(s[1..], atoms);
      }
    }
  }

  /**
   * `re.search("SED[-]?ML", a + "|" + b)` matches exactly when it matches in
   * `a` or in `b`: the joiner `|` cannot be part of a match.
   */
  lemma SedmlAcrossJoiner(a: string, b: string)
    ensures Search("SED[-]?ML", a + "|" + b) <==> Search("SED[-]?ML", a) || Search("SED[-]?ML", b)
  {
    CompileSedml();
    var atoms := Compile("SED[-]?ML").atoms;
    assert NeverConsumes(atoms, '|');
    assert a + "|" + b == a + ['|'] + b;
    SomewhereAcrossJoiner(a, '|', b, atoms);
  }
}
