/**
 * The shape of the classification patterns of src/gql_parser.go:30-32: an anchored
 * sequence of characters, classes and starred classes, with backtracking semantics.
 */
module Regex {
  import opened Common

  /**
   * The character classes in use.  `Letter` is a literal under (?i); `Word` and
   * `NonWord` are Go's \w and \W under (?i), where the folding of s and k adds
   * the long s and the Kelvin sign to the ASCII word characters.
   */
  datatype Class = Letter(c: char) | Space | Word | NonWord | NotNewline

  /** One character of a class, or any number of them. */
  datatype Item = One(cls: Class) | Many(cls: Class)

  predicate IsSpace(c: char) {
    c == '\t' || c == '\n' || c == '\U{0C}' || c == '\r' || c == ' '
  }

  predicate IsWord(c: char) {
    '0' <= c <= '9' || 'a' <= c <= 'z' || 'A' <= c <= 'Z' || c == '_' || c == '\U{17F}' || c == '\U{212A}'
  }

  /** Spaces are the blank and the control characters from tab to carriage return but the vertical tab. */
  lemma SpacesAre(c: char)
    ensures IsSpace(c) <==> c as int == 32 || (9 <= c as int <= 13 && c as int != 11)
  {
  }

  /** A word character folds to a small letter, a digit or an underscore; and a capital folds as its small letter. */
  lemma WordsAre(c: char)
    ensures var f := FoldCase(c) as int;
            IsWord(c) <==> 97 <= f <= 122 || 48 <= f <= 57 || f == 95
    ensures 65 <= c as int <= 90 ==> FoldCase(c) as int == c as int + 32
    ensures 97 <= c as int <= 122 ==> FoldCase(c) == c
  {
  }

  predicate InClass(cls: Class, c: char) {
    match cls
    case Letter(l) => FoldCase(c) == FoldCase(l)
    case Space => IsSpace(c)
    case Word => IsWord(c)
    case NonWord => !IsWord(c)
    case NotNewline => c != '\n'
  }

  /** Every character of s[i..j] is in the class. */
  predicate AllIn(cls: Class, s: string, i: nat, j: nat)
    requires i <= j <= |s|
  {
    forall k :: i <= k < j ==> InClass(cls, s[k])
  }

  /** The items, in order, match `s` from position `i` on, up to some later position. */
  predicate Matches(items: seq<Item>, s: string, i: nat)
    requires i <= |s|
    decreases |s| - i, |items|
  {
    if items == [] then true
    else match items[0]
      case One(cls) => i < |s| && InClass(cls, s[i]) && Matches(items[1..], s, i + 1)
      case Many(cls) => Matches(items[1..], s, i) || (i < |s| && InClass(cls, s[i]) && Matches(items, s, i + 1))
  }

  /** A case-insensitive literal. */
  function Literal(w: string): seq<Item> {
    if w == "" then [] else [One(Letter(w[0]))] + Literal(w[1..])
  }

  /** The literal, in any case, stands at position `i`. */
  predicate LiteralAt(w: string, s: string, i: nat) {
    i + |w| <= |s| && forall k :: 0 <= k < |w| ==> FoldCase(s[i + k]) == FoldCase(w[k])
  }

  /** A starred class takes any run of its characters. */
  lemma {:induction false} ManyThen(cls: Class, rest: seq<Item>, s: string, i: nat)
    requires i <= |s|
    ensures Matches([Many(cls)] + rest, s, i) <==>
            exists j :: i <= j <= |s| && AllIn(cls, s, i, j) && Matches(rest, s, j)
    decreases |s| - i
  {
    var items := [Many(cls)] + rest;
    assert items[1..] == rest;
    assert AllIn(cls, s, i, i);
    if i < |s| {
      ManyThen(cls, rest, s, i + 1);
      if Matches(items, s, i) && !Matches(rest, s, i) {
        var j :| i + 1 <= j <= |s| && AllIn(cls, s, i + 1, j) && Matches(rest, s, j);
        assert AllIn(cls, s, i, j);
      }
      if j :| i <= j <= |s| && AllIn(cls, s, i, j) && Matches(rest, s, j) {
        assert i < j ==> AllIn(cls, s, i + 1, j);
      }
    }
  }

  /** A literal takes exactly its own length. */
  lemma {:induction false} LiteralThen(w: string, rest: seq<Item>, s: string, i: nat)
    requires i <= |s|
    ensures Matches(Literal(w) + rest, s, i) <==> LiteralAt(w, s, i) && Matches(rest, s, i + |w|)
    decreases |w|
  {
    var items := Literal(w) + rest;
    if w == "" {
      assert items == rest;
    } else {
      assert items[1..] == Literal(w[1..]) + rest;
      if i < |s| {
        LiteralThen(w[1..], rest, s, i + 1);
        LiteralAtTail(w, s, i);
      }
    }
  }

  lemma LiteralAtTail(w: string, s: string, i: nat)
    requires w != "" && i < |s|
    ensures LiteralAt(w, s, i) <==> FoldCase(s[i]) == FoldCase(w[0]) && LiteralAt(w[1..], s, i + 1)
  {
    if LiteralAt(w[1..], s, i + 1) && FoldCase(s[i]) == FoldCase(w[0]) {
      forall k | 0 <= k < |w| ensures FoldCase(s[i + k]) == FoldCase(w[k]) {
        if k > 0 {
          assert w[k] == w[1..][k - 1] && s[i + k] == s[i + 1 + (k - 1)];
        }
      }
    }
    if LiteralAt(w, s, i) {
      assert FoldCase(s[i + 0]) == FoldCase(w[0]);
      forall k | 0 <= k < |w[1..]| ensures FoldCase(s[i + 1 + k]) == FoldCase(w[1..][k]) {
        assert w[1..][k] == w[k + 1] && s[i + 1 + k] == s[i + (k + 1)];
      }
    }
  }
}
