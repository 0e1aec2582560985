/**
 * Placeholder tokens in validator arguments.
 *
 * A validator argument string may name a sibling field as `%ident%`, where
 * `ident` is made of the characters `[a-zA-Z0-9_]`. Inside set number `n`
 * every such token is rewritten to `ident_n`, scanning left to right with
 * non-overlapping matches. Because the marker is not an identifier character,
 * a token starts at a marker exactly when the longest run of identifier
 * characters after it is closed by another marker.
 */
module Placeholder {

  /** The placeholder delimiter (a fixed constant, not an option). */
  const Marker: char := '%'

  /** The identifier class `[a-zA-Z0-9_]` of the placeholder pattern. */
  predicate IsIdentChar(c: char) {
    ('a' <= c <= 'z') || ('A' <= c <= 'Z') || ('0' <= c <= '9') || c == '_'
  }

  predicate IsIdent(s: string) {
    forall i :: 0 <= i < |s| ==> IsIdentChar(s[i])
  }

  /** Length of the longest prefix of `s` made of identifier characters. */
  function IdentRun(s: string): (k: nat)
    ensures k <= |s|
    ensures IsIdent(s[..k])
    ensures k < |s| ==> !IsIdentChar(s[k])
  {
    if s == [] || !IsIdentChar(s[0]) then 0 else 1 + IdentRun(s[1..])
  }

  /** The run ends exactly where the identifier characters stop. */
  lemma {:induction false} IdentRunOf(s: string, j: nat)
    requires j <= |s| && IsIdent(s[..j])
    requires j < |s| ==> !IsIdentChar(s[j])
    ensures IdentRun(s) == j
  {
    if j > 0 {
      assert s[..j][0] == s[0];
      assert s[1..][..j - 1] == s[..j][1..];
      IdentRunOf(s[1..], j - 1);
    }
  }

  /** A placeholder token `%ident%` begins at position `i` of `s`. */
  predicate MatchAt(s: string, i: int)
  {
    && 0 <= i < |s|
    && s[i] == Marker
    && var k := IdentRun(s[i + 1..]);
       i + 1 + k < |s| && s[i + 1 + k] == Marker
  }

  /**
   * The pattern reading of a match: a token starts at `i` exactly when a
   * marker there is followed by identifier characters up to a closing
   * marker. The marker is no identifier character, so the greedy run never
   * passes a closing marker, and that closing marker is the one the scanner
   * finds.
   */
  lemma MatchAtIff(s: string, i: int)
    ensures MatchAt(s, i)
        <==> 0 <= i < |s| && s[i] == Marker && exists j :: i < j < |s| && s[j] == Marker && IsIdent(s[i + 1..j])
  {
    if MatchAt(s, i) {
      var k := IdentRun(s[i + 1..]);
      assert s[i + 1..][..k] == s[i + 1..i + 1 + k];
    }
    if 0 <= i < |s| && s[i] == Marker && exists j :: i < j < |s| && s[j] == Marker && IsIdent(s[i + 1..j]) {
      var j :| i < j < |s| && s[j] == Marker && IsIdent(s[i + 1..j]);
      var t := s[i + 1..];
      assert t[..j - i - 1] == s[i + 1..j];
      assert t[j - i - 1] == s[j];
      IdentRunOf(t, j - i - 1);
    }
  }

  /**
   * The left-to-right scanner that replaces every `%ident%` token of `s`
   * by `ident_<number>` and copies every other character.
   */
  function Rewrite(s: string, number: string): string
    decreases |s|
  {
    if s == [] then ""
    else if MatchAt(s, 0) then
      var k := IdentRun(s[1..]);
      s[1..1 + k] + "_" + number + Rewrite(s[k + 2..], number)
    else [s[0]] + Rewrite(s[1..], number)
  }

  /** The scanner, read as a parse of the string into characters and tokens. */
  datatype Piece = Char(c: char) | Token(ident: string)

  function Parse(s: string): seq<Piece>
    decreases |s|
  {
    if s == [] then []
    else if MatchAt(s, 0) then
      var k := IdentRun(s[1..]);
      [Token(s[1..1 + k])] + Parse(s[k + 2..])
    else [Char(s[0])] + Parse(s[1..])
  }

  /** Writes the pieces back as the declared text, tokens in `%ident%` form. */
  function Unparse(ps: seq<Piece>): string {
    if ps == [] then ""
    else
      match ps[0]
      case Char(c) => [c] + Unparse(ps[1..])
      case Token(id) => [Marker] + id + [Marker] + Unparse(ps[1..])
  }

  /** Writes the pieces with every token qualified by set number `number`. */
  function Fill(ps: seq<Piece>, number: string): string {
    if ps == [] then ""
    else
      match ps[0]
      case Char(c) => [c] + Fill(ps[1..], number)
      case Token(id) => id + "_" + number + Fill(ps[1..], number)
  }

  /** `Unparse` and `Fill` on a sequence with a first piece. */
  lemma PieceCons(p: Piece, ps: seq<Piece>, number: string)
    ensures p.Char? ==> Unparse([p] + ps) == [p.c] + Unparse(ps) && Fill([p] + ps, number) == [p.c] + Fill(ps, number)
    ensures p.Token? ==> Unparse([p] + ps) == [Marker] + p.ident + [Marker] + Unparse(ps)
    ensures p.Token? ==> Fill([p] + ps, number) == p.ident + "_" + number + Fill(ps, number)
  {
    assert ([p] + ps)[1..] == ps;
  }

  /** Parsing loses nothing: the declared text is recovered from its pieces. */
  lemma {:induction false} UnparseParse(s: string)
    ensures Unparse(Parse(s)) == s
    decreases |s|
  {
    if s != [] {
      if MatchAt(s, 0) {
        var k := IdentRun(s[1..]);
        var id, rest := s[1..1 + k], s[k + 2..];
        calc {
          Unparse(Parse(s));
          Unparse([Token(id)] + Parse(rest));
          { PieceCons(Token(id), Parse(rest), ""); }
          [Marker] + id + [Marker] + Unparse(Parse(rest));
          { UnparseParse(rest); }
          [Marker] + id + [Marker] + rest;
          s;
        }
      } else {
        calc {
          Unparse(Parse(s));
          Unparse([Char(s[0])] + Parse(s[1..]));
          { PieceCons(Char(s[0]), Parse(s[1..]), ""); }
          [s[0]] + Unparse(Parse(s[1..]));
          { UnparseParse(s[1..]); }
          [s[0]] + s[1..];
          s;
        }
      }
    }
  }

  /**
   * Rewriting for set `number` fills the number into one parse of the text
   * that does not depend on the set: set 1 and set 2 differ only in the
   * number written after each token.
   */
  lemma {:induction false} RewriteIsFill(s: string, number: string)
    ensures Rewrite(s, number) == Fill(Parse(s), number)
    decreases |s|
  {
    if s != [] {
      if MatchAt(s, 0) {
        var k := IdentRun(s[1..]);
        var id, rest := s[1..1 + k], s[k + 2..];
        calc {
          Fill(Parse(s), number);
          Fill([Token(id)] + Parse(rest), number);
          { PieceCons(Token(id), Parse(rest), number); }
          id + "_" + number + Fill(Parse(rest), number);
          { RewriteIsFill(rest, number); }
          id + "_" + number + Rewrite(rest, number);
          Rewrite(s, number);
        }
      } else {
        calc {
          Fill(Parse(s), number);
          Fill([Char(s[0])] + Parse(s[1..]), number);
          { PieceCons(Char(s[0]), Parse(s[1..]), number); }
          [s[0]] + Fill(Parse(s[1..]), number);
          { RewriteIsFill(s[1..], number); }
          [s[0]] + Rewrite(s[1..], number);
          Rewrite(s, number);
        }
      }
    }
  }

  /** A match in the tail of `s` is a match in `s`, one position further on. */
  lemma MatchShift(s: string, i: int)
    requires |s| > 0 && 0 <= i
    ensures MatchAt(s[1..], i) <==> MatchAt(s, i + 1)
  {
    if i < |s| - 1 {
      assert s[1..][i + 1..] == s[i + 2..];
      assert s[1..][i] == s[i + 1];
      var k := IdentRun(s[i + 2..]);
      if i + 2 + k < |s| {
        assert s[1..][i + 1 + k] == s[i + 2 + k];
      }
    }
  }

  lemma {:induction false} RewriteNoMatch(s: string, number: string)
    requires forall i :: !MatchAt(s, i)
    ensures Rewrite(s, number) == s
    decreases |s|
  {
    if s != [] {
      assert !MatchAt(s, 0);
      forall i ensures !MatchAt(s[1..], i) {
        if 0 <= i {
          MatchShift(s, i);
        }
      }
      RewriteNoMatch(s[1..], number);
      assert s == [s[0]] + s[1..];
    }
  }

  /** A string that starts with a token is rewritten to one that does not start with a marker. */
  lemma RewriteMatchHead(s: string, number: string)
    requires MatchAt(s, 0)
    ensures Rewrite(s, number) != [] && Rewrite(s, number)[0] != Marker
  {
    var k := IdentRun(s[1..]);
    var id := s[1..1 + k];
    var tail := "_" + number + Rewrite(s[k + 2..], number);
    assert Rewrite(s, number) == id + tail;
    if k > 0 {
      assert id == s[1..][..k];
      assert (id + tail)[0] == id[0];
    } else {
      assert id + tail == tail;
    }
  }

  lemma {:induction false} RewriteMatchChanges(s: string, number: string, i: int)
    requires MatchAt(s, i)
    ensures Rewrite(s, number) != s
    decreases |s|
  {
    if MatchAt(s, 0) {
      RewriteMatchHead(s, number);
    } else {
      MatchShift(s, i - 1);
      RewriteMatchChanges(s[1..], number, i - 1);
      var r := Rewrite(s[1..], number);
      assert Rewrite(s, number) == [s[0]] + r;
      assert ([s[0]] + r)[1..] == r;
    }
  }

  /** The scanner changes a string exactly when it holds a placeholder token. */
  lemma RewriteUnchangedIff(s: string, number: string)
    ensures Rewrite(s, number) == s <==> forall i :: !MatchAt(s, i)
  {
    if forall i :: !MatchAt(s, i) {
      RewriteNoMatch(s, number);
    } else {
      var i :| MatchAt(s, i);
      RewriteMatchChanges(s, number, i);
    }
  }

  /** Text without a marker is copied through unchanged. */
  lemma {:induction false} RewritePlain(t: string, rest: string, number: string)
    requires Marker !in t
    ensures Rewrite(t + rest, number) == t + Rewrite(rest, number)
    decreases |t|
  {
    if t != [] {
      var s := t + rest;
      assert t[0] in t;
      assert s[0] == t[0] && !MatchAt(s, 0);
      assert s[1..] == t[1..] + rest;
      RewritePlain(t[1..], rest, number);
      calc {
        Rewrite(s, number);
        [t[0]] + Rewrite(t[1..] + rest, number);
        [t[0]] + (t[1..] + Rewrite(rest, number));
        { assert t == [t[0]] + t[1..]; }
        t + Rewrite(rest, number);
      }
    } else {
      assert t + rest == rest;
    }
  }

  /** A token `%ident%` becomes `ident_<number>`. */
  lemma RewriteToken(id: string, rest: string, number: string)
    requires IsIdent(id)
    ensures Rewrite([Marker] + id + [Marker] + rest, number) == id + "_" + number + Rewrite(rest, number)
  {
    var s := [Marker] + id + [Marker] + rest;
    assert s[1..] == id + [Marker] + rest;
    assert s[1..][..|id|] == id;
    IdentRunOf(s[1..], |id|);
    var k := IdentRun(s[1..]);
    assert MatchAt(s, 0);
    assert s[1..1 + k] == id;
    assert s[k + 2..] == rest;
  }

  /**
   * A message with two tokens: each token takes the set number, the text
   * around them is kept.
   */
  lemma RewriteTwoTokens(a: string, x: string, b: string, y: string, c: string, number: string)
    requires Marker !in a && Marker !in b && Marker !in c
    requires IsIdent(x) && IsIdent(y)
    ensures Rewrite(a + ([Marker] + x + [Marker] + (b + ([Marker] + y + [Marker] + c))), number)
         == a + (x + "_" + number + (b + (y + "_" + number + c)))
  {
    var s3 := [Marker] + y + [Marker] + c;
    var s2 := b + s3;
    var s1 := [Marker] + x + [Marker] + s2;
    var r3 := y + "_" + number + c;
    var r1 := x + "_" + number + (b + r3);
    assert Rewrite(s3, number) == r3 by {
      RewritePlain(c, "", number);
      assert c + "" == c;
      RewriteToken(y, c, number);
    }
    assert Rewrite(s2, number) == b + r3 by {
      RewritePlain(b, s3, number);
    }
    assert Rewrite(s1, number) == r1 by {
      RewriteToken(x, s2, number);
    }
    RewritePlain(a, s1, number);
  }

  /**
   * A string in which no marker is followed by an identifier character or a
   * second marker holds no token, so it is left as declared.
   */
  lemma RewriteNoTokenStart(s: string, number: string)
    requires forall i :: 0 <= i < |s| - 1 && s[i] == Marker ==> !IsIdentChar(s[i + 1]) && s[i + 1] != Marker
    ensures Rewrite(s, number) == s
  {
    forall i ensures !MatchAt(s, i) {
      if 0 <= i < |s| - 1 && s[i] == Marker {
        assert s[i + 1..][0] == s[i + 1];
      }
    }
    RewriteNoMatch(s, number);
  }

  /** Both tokens of the message take the set number, whatever the set. */
  lemma ExampleTwoTokens(number: string)
    ensures Rewrite("Please fill in " + ([Marker] + "telephone" + [Marker] + (" or " + ([Marker] + "pager" + [Marker] + "."))), number)
         == "Please fill in " + ("telephone" + "_" + number + (" or " + ("pager" + "_" + number + ".")))
  {
    RewriteTwoTokens("Please fill in ", "telephone", " or ", "pager", ".", number);
  }

  /** Python format specifiers such as `%(min)s` are not placeholder tokens. */
  lemma ExampleFormatSpecifiers(number: string)
    ensures Rewrite("%(min)s to %(max)s.", number) == "%(min)s to %(max)s."
  {
    RewriteNoTokenStart("%(min)s to %(max)s.", number);
  }
}
