/**
 * Classification of query texts (src/gql_parser.go).  Each classifier is given by its
 * pattern and by a direct description of the accepted texts, proved equivalent.
 */
module GraphqlText {
  import opened Common
  import opened Regex

  // ----- the patterns -----

  /** (?i)^\s*mutation\W, line 30. */
  function MutationRegex(): seq<Item> {
    [Many(Space)] + (Literal("mutation") + ([One(NonWord)] + []))
  }

  /** (?i)^\s*subscription\W, line 31. */
  function SubscriptionRegex(): seq<Item> {
    [Many(Space)] + (Literal("subscription") + ([One(NonWord)] + []))
  }

  /** What follows the first non-word character after query: \W*\w*.*\s*@cached. */
  function CachedTail(): seq<Item> {
    [Many(NonWord)] + ([Many(Word)] + ([Many(NotNewline)] + ([Many(Space)] + (Literal("@cached") + []))))
  }

  /** (?i)^\s*query\W+\w*.*\s*@cached, line 32. */
  function CachedQueryRegex(): seq<Item> {
    [Many(Space)] + (Literal("query") + ([One(NonWord)] + CachedTail()))
  }

  predicate IsMutation(q: string) {
    Matches(MutationRegex(), q, 0)
  }

  predicate IsSubscription(q: string) {
    Matches(SubscriptionRegex(), q, 0)
  }

  predicate IsCachedQuery(q: string) {
    Matches(CachedQueryRegex(), q, 0)
  }

  // ----- the accepted texts, described directly -----

  /** The first position from `i` on that holds no space. */
  function SkipSpaces(s: string, i: nat): (j: nat)
    requires i <= |s|
    ensures i <= j <= |s| && AllIn(Space, s, i, j) && (j < |s| ==> !IsSpace(s[j]))
    decreases |s| - i
  {
    if i < |s| && IsSpace(s[i]) then SkipSpaces(s, i + 1) else i
  }

  /** The keyword, in any case, after the leading spaces, followed by a character that cannot continue a name. */
  predicate IsOperation(q: string, keyword: string) {
    var i := SkipSpaces(q, 0);
    LiteralAt(keyword, q, i) && i + |keyword| < |q| && !IsWord(q[i + |keyword|])
  }

  /**
   * `@cached` stands at position `j`, and what separates it from position `p` is
   * non-word characters, then characters of one line, then spaces.
   */
  ghost predicate DirectiveReachable(q: string, p: nat, j: nat) {
    LiteralAt("@cached", q, j) &&
    exists a, b :: p <= a <= b <= j && AllIn(NonWord, q, p, a) && AllIn(NotNewline, q, a, b) && AllIn(Space, q, b, j)
  }

  ghost predicate HasDirective(q: string, p: nat) {
    exists j :: DirectiveReachable(q, p, j)
  }

  // ----- equivalence -----

  ghost predicate StartsNonSpace(keyword: string) {
    keyword != "" && forall c :: FoldCase(c) == FoldCase(keyword[0]) ==> !IsSpace(c)
  }

  lemma LiteralFirst(w: string, s: string, i: nat)
    requires w != "" && LiteralAt(w, s, i)
    ensures FoldCase(s[i]) == FoldCase(w[0])
  {
    assert FoldCase(s[i + 0]) == FoldCase(w[0]);
  }

  lemma KeywordThen(q: string, keyword: string, rest: seq<Item>)
    requires StartsNonSpace(keyword)
    ensures Matches([Many(Space)] + (Literal(keyword) + rest), q, 0) <==>
            var k := SkipSpaces(q, 0); LiteralAt(keyword, q, k) && Matches(rest, q, k + |keyword|)
  {
    var k := SkipSpaces(q, 0);
    ManyThen(Space, Literal(keyword) + rest, q, 0);
    LiteralThen(keyword, rest, q, k);
    if i :| 0 <= i <= |q| && AllIn(Space, q, 0, i) && Matches(Literal(keyword) + rest, q, i) {
      LiteralThen(keyword, rest, q, i);
      LiteralFirst(keyword, q, i);
      assert i == k;
    }
  }

  lemma NonWordThen(rest: seq<Item>, q: string, i: nat)
    requires i <= |q|
    ensures Matches([One(NonWord)] + rest, q, i) <==> i < |q| && !IsWord(q[i]) && Matches(rest, q, i + 1)
  {
    var items := [One(NonWord)] + rest;
    assert items[0] == One(NonWord) && items[1..] == rest;
  }

  lemma OperationMatches(q: string, keyword: string)
    requires StartsNonSpace(keyword)
    ensures Matches([Many(Space)] + (Literal(keyword) + ([One(NonWord)] + [])), q, 0) <==> IsOperation(q, keyword)
  {
    KeywordThen(q, keyword, [One(NonWord)] + []);
    var i := SkipSpaces(q, 0) + |keyword|;
    if i <= |q| {
      NonWordThen([], q, i);
    }
  }

  lemma SpacesThenDirective(q: string, b: nat)
    requires b <= |q|
    ensures Matches([Many(Space)] + (Literal("@cached") + []), q, b) <==>
            exists j :: b <= j <= |q| && AllIn(Space, q, b, j) && LiteralAt("@cached", q, j)
  {
    ManyThen(Space, Literal("@cached") + [], q, b);
    forall j | b <= j <= |q|
      ensures Matches(Literal("@cached") + [], q, j) <==> LiteralAt("@cached", q, j)
    {
      LiteralThen("@cached", [], q, j);
    }
  }

  /** One line from `a`, then spaces, then the directive at `j`. */
  ghost predicate LineReaches(q: string, a: nat, j: nat) {
    LiteralAt("@cached", q, j) &&
    exists b :: a <= b <= j && AllIn(NotNewline, q, a, b) && AllIn(Space, q, b, j)
  }

  lemma LineThenDirective(q: string, a: nat)
    requires a <= |q|
    ensures Matches([Many(NotNewline)] + ([Many(Space)] + (Literal("@cached") + [])), q, a) <==>
            exists j :: LineReaches(q, a, j)
  {
    var rest := [Many(Space)] + (Literal("@cached") + []);
    ManyThen(NotNewline, rest, q, a);
    forall b | a <= b <= |q|
      ensures Matches(rest, q, b) <==> exists j :: b <= j <= |q| && AllIn(Space, q, b, j) && LiteralAt("@cached", q, j)
    {
      SpacesThenDirective(q, b);
    }
    if b :| a <= b <= |q| && AllIn(NotNewline, q, a, b) && Matches(rest, q, b) {
      var j :| b <= j <= |q| && AllIn(Space, q, b, j) && LiteralAt("@cached", q, j);
      assert LineReaches(q, a, j);
    }
  }

  /** \w*.* takes what .* takes, for no word character is a newline. */
  lemma WordThenLineThenDirective(q: string, a: nat)
    requires a <= |q|
    ensures Matches([Many(Word)] + ([Many(NotNewline)] + ([Many(Space)] + (Literal("@cached") + []))), q, a) <==>
            exists j :: LineReaches(q, a, j)
  {
    var rest := [Many(NotNewline)] + ([Many(Space)] + (Literal("@cached") + []));
    ManyThen(Word, rest, q, a);
    LineThenDirective(q, a);
    assert AllIn(Word, q, a, a);
    if w :| a <= w <= |q| && AllIn(Word, q, a, w) && Matches(rest, q, w) {
      LineThenDirective(q, w);
      var j :| LineReaches(q, w, j);
      var b :| w <= b <= j && AllIn(NotNewline, q, w, b) && AllIn(Space, q, b, j);
      assert AllIn(NotNewline, q, a, b);
      assert LineReaches(q, a, j);
    }
  }

  lemma TailMatches(q: string, p: nat)
    requires p <= |q|
    ensures Matches(CachedTail(), q, p) <==> HasDirective(q, p)
  {
    var rest := [Many(Word)] + ([Many(NotNewline)] + ([Many(Space)] + (Literal("@cached") + [])));
    ManyThen(NonWord, rest, q, p);
    if a :| p <= a <= |q| && AllIn(NonWord, q, p, a) && Matches(rest, q, a) {
      WordThenLineThenDirective(q, a);
      var j :| LineReaches(q, a, j);
      assert DirectiveReachable(q, p, j);
    }
    if j :| DirectiveReachable(q, p, j) {
      var a, b :| p <= a <= b <= j && AllIn(NonWord, q, p, a) && AllIn(NotNewline, q, a, b) && AllIn(Space, q, b, j);
      assert LineReaches(q, a, j);
      WordThenLineThenDirective(q, a);
    }
  }

  lemma CachedQueryMatches(q: string)
    ensures IsCachedQuery(q) <==>
            IsOperation(q, "query") && HasDirective(q, SkipSpaces(q, 0) + 6)
  {
    KeywordThen(q, "query", [One(NonWord)] + CachedTail());
    var p := SkipSpaces(q, 0) + 5;
    if p <= |q| {
      NonWordThen(CachedTail(), q, p);
      if p < |q| {
        TailMatches(q, p + 1);
      }
    }
  }

  lemma MutationMatches(q: string)
    ensures IsMutation(q) <==> IsOperation(q, "mutation")
  {
    OperationMatches(q, "mutation");
  }

  lemma SubscriptionMatches(q: string)
    ensures IsSubscription(q) <==> IsOperation(q, "subscription")
  {
    OperationMatches(q, "subscription");
  }

  /** Each pattern accepts exactly the described texts. */
  lemma PatternsDescribed(q: string)
    ensures IsMutation(q) <==> IsOperation(q, "mutation")
    ensures IsSubscription(q) <==> IsOperation(q, "subscription")
    ensures IsCachedQuery(q) <==>
            IsOperation(q, "query") && HasDirective(q, SkipSpaces(q, 0) + 6)
  {
    MutationMatches(q);
    SubscriptionMatches(q);
    CachedQueryMatches(q);
  }

  /** The first character after the leading spaces, in its folded form. */
  function Initial(q: string): Option<char> {
    var i := SkipSpaces(q, 0);
    if i < |q| then Some(FoldCase(q[i])) else None
  }

  lemma OperationInitial(q: string, keyword: string)
    requires keyword != "" && IsOperation(q, keyword)
    ensures Initial(q) == Some(FoldCase(keyword[0]))
  {
    LiteralFirst(keyword, q, SkipSpaces(q, 0));
  }

  lemma MutationInitial(q: string)
    requires IsMutation(q)
    ensures Initial(q) == Some('m')
  {
    MutationMatches(q);
    OperationInitial(q, "mutation");
  }

  lemma SubscriptionInitial(q: string)
    requires IsSubscription(q)
    ensures Initial(q) == Some('s')
  {
    SubscriptionMatches(q);
    OperationInitial(q, "subscription");
  }

  lemma CachedQueryInitial(q: string)
    requires IsCachedQuery(q)
    ensures Initial(q) == Some('q')
  {
    CachedQueryMatches(q);
    OperationInitial(q, "query");
  }

  /** No text matches two of the three patterns. */
  lemma PatternsAreDisjoint(q: string)
    ensures !(IsMutation(q) && IsSubscription(q))
    ensures !(IsMutation(q) && IsCachedQuery(q))
    ensures !(IsSubscription(q) && IsCachedQuery(q))
  {
    if IsMutation(q) {
      MutationInitial(q);
    }
    if IsSubscription(q) {
      SubscriptionInitial(q);
    }
    if IsCachedQuery(q) {
      CachedQueryInitial(q);
    }
  }
}
