/** Filling in `{{key}}` placeholders by one replace-all per argument, in whatever order the map of
    arguments is walked (translations/translations.go, lines 94 to 98). */
module Templates {

  type Key = string

  /** A template, or a value, read as literal text and placeholders. */
  datatype Token = Literal(text: string) | Hole(key: Key)

  function Placeholder(k: Key): string {
    "{{" + k + "}}"
  }

  function Shown(token: Token): string {
    match token case Literal(t) => t case Hole(k) => Placeholder(k)
  }

  function Text(tokens: seq<Token>): string {
    if tokens == [] then "" else Shown(tokens[0]) + Text(tokens[1..])
  }

  predicate Braceless(k: Key) {
    '{' !in k && '}' !in k
  }

  /** Keys have no braces, and literal text has no closing brace; an opening one does no harm. */
  predicate WellFormed(tokens: seq<Token>) {
    forall i :: 0 <= i < |tokens| ==> WellFormedToken(tokens[i])
  }

  predicate WellFormedToken(token: Token) {
    match token case Literal(text) => '}' !in text case Hole(k) => Braceless(k)
  }

  predicate WellFormedArgs(args: map<Key, seq<Token>>) {
    forall k :: k in args ==> Braceless(k) && WellFormed(args[k])
  }

  /** Go's `strings.ReplaceAll` for a non-empty pattern: leftmost matches, none overlapping. */
  function ReplaceAll(s: string, pattern: string, v: string): string
    requires pattern != ""
  {
    if s == "" then ""
    else if pattern <= s then v + ReplaceAll(s[|pattern|..], pattern, v)
    else [s[0]] + ReplaceAll(s[1..], pattern, v)
  }

  /** Every placeholder with an argument becomes its value, all at once. */
  function Filled(tokens: seq<Token>, args: map<Key, seq<Token>>): seq<Token> {
    if tokens == [] then [] else Filling(tokens[0], args) + Filled(tokens[1..], args)
  }

  function Filling(token: Token, args: map<Key, seq<Token>>): seq<Token> {
    if token.Hole? && token.key in args then args[token.key] else [token]
  }

  /** One replace-all per argument, each on the result of the one before. */
  function InOrder(text: string, args: map<Key, string>, order: seq<Key>): string
    requires forall k :: k in order ==> k in args
    decreases |order|
  {
    if order == [] then text
    else InOrder(ReplaceAll(text, Placeholder(order[0]), args[order[0]]), args, order[1..])
  }

  ghost predicate Enumerates(order: seq<Key>, keys: set<Key>) {
    && (forall k :: k in order <==> k in keys)
    && forall i, j :: 0 <= i < j < |order| ==> order[i] != order[j]
  }

  function Texts(args: map<Key, seq<Token>>): map<Key, string> {
    map k | k in args :: Text(args[k])
  }

  /* ---- One replacement ---- */

  lemma Regroup<T>(x: seq<T>, y: seq<T>, z: seq<T>)
    ensures (x + y) + z == x + (y + z)
  {
  }

  lemma TextCons(token: Token, rest: seq<Token>)
    ensures Text([token] + rest) == Shown(token) + Text(rest)
  {
    assert ([token] + rest)[1..] == rest;
  }

  lemma TextConsAppend(token: Token, a: seq<Token>, b: seq<Token>)
    requires Text(a + b) == Text(a) + Text(b)
    ensures Text(([token] + a) + b) == Text([token] + a) + Text(b)
  {
    Regroup([token], a, b);
    TextCons(token, a + b);
    TextCons(token, a);
    Regroup(Shown(token), Text(a), Text(b));
  }

  lemma {:induction false} TextAppend(a: seq<Token>, b: seq<Token>)
    ensures Text(a + b) == Text(a) + Text(b)
  {
    if a == [] {
      assert a + b == b;
    } else {
      TextAppend(a[1..], b);
      TextConsAppend(a[0], a[1..], b);
      assert [a[0]] + a[1..] == a;
    }
  }

  lemma {:induction false} FilledAppend(a: seq<Token>, b: seq<Token>, args: map<Key, seq<Token>>)
    ensures Filled(a + b, args) == Filled(a, args) + Filled(b, args)
  {
    if a == [] {
      assert a + b == b;
    } else {
      FilledAppend(a[1..], b, args);
      assert (a + b)[0] == a[0] && (a + b)[1..] == a[1..] + b;
      Regroup(Filling(a[0], args), Filled(a[1..], args), Filled(b, args));
    }
  }

  lemma FilledOne(token: Token, args: map<Key, seq<Token>>)
    ensures Filled([token], args) == Filling(token, args) && Text([token]) == Shown(token)
  {
    assert [token][1..] == [];
    assert Filled([token], args) == Filling(token, args) + [];
    assert Text([token]) == Shown(token) + "";
  }

  lemma {:induction false} FilledWellFormed(tokens: seq<Token>, args: map<Key, seq<Token>>)
    requires WellFormed(tokens) && WellFormedArgs(args)
    ensures WellFormed(Filled(tokens, args))
  {
    if tokens != [] {
      FilledWellFormed(tokens[1..], args);
      assert WellFormedToken(tokens[0]);
      assert WellFormed(Filling(tokens[0], args));
    }
  }

  /** The key, and right after it a closing brace. */
  predicate ClosesAfter(s: string, k: Key) {
    |k| < |s| && s[..|k|] == k && s[|k|] == '}'
  }

  lemma OpeningIsNoKey(s: string, k: Key)
    requires s != "" && s[0] == '{' && Braceless(k)
    ensures !ClosesAfter(s, k)
  {
    if k != "" {
      assert k[0] in k;
      assert |k| < |s| ==> s[..|k|][0] == '{';
    }
  }

  lemma ClosesInTail(c: char, s: string, k: Key)
    requires k != "" && ClosesAfter([c] + s, k)
    ensures c == k[0] && ClosesAfter(s, k[1..])
  {
    var all := [c] + s;
    assert all[..|k|][0] == c;
    assert s[..|k| - 1] == all[..|k|][1..];
  }

  lemma {:induction false} NothingCloses(t: string, rest: seq<Token>, k: Key)
    requires '}' !in t && WellFormed(rest) && Braceless(k)
    ensures !ClosesAfter(t + Text(rest), k)
    decreases |rest|, 1, |t|
  {
    if t != "" {
      var tail := t[1..] + Text(rest);
      assert t + Text(rest) == [t[0]] + tail;
      if k != "" && ClosesAfter([t[0]] + tail, k) {
        ClosesInTail(t[0], tail, k);
        NothingCloses(t[1..], rest, k[1..]);
        assert false;
      }
    } else {
      assert t + Text(rest) == Text(rest);
      if rest != [] {
        NothingClosesTokens(rest, k);
      }
    }
  }

  lemma {:induction false} NothingClosesTokens(rest: seq<Token>, k: Key)
    requires rest != [] && WellFormed(rest) && Braceless(k)
    ensures !ClosesAfter(Text(rest), k)
    decreases |rest|, 0
  {
    var s := Text(rest);
    assert WellFormedToken(rest[0]);
    if rest[0].Literal? {
      NothingCloses(rest[0].text, rest[1..], k);
    } else {
      OpeningIsNoKey(s, k);
    }
  }

  lemma {:induction false} NothingClosesAfterBrace(t: string, rest: seq<Token>, k: Key)
    requires '}' !in t && WellFormed(rest) && Braceless(k)
    requires t + Text(rest) != "" && (t + Text(rest))[0] == '{'
    ensures !ClosesAfter((t + Text(rest))[1..], k)
    decreases |rest|
  {
    var s := t + Text(rest);
    if t != "" {
      NothingCloses(t[1..], rest, k);
      assert s[1..] == t[1..] + Text(rest);
    } else if rest != [] {
      assert s == Text(rest) && WellFormedToken(rest[0]);
      if rest[0].Literal? {
        NothingClosesAfterBrace(rest[0].text, rest[1..], k);
      } else {
        OpeningIsNoKey(s[1..], k);
      }
    }
  }

  lemma NoPlaceholderStarts(t: string, rest: seq<Token>, k: Key)
    requires t != "" && '}' !in t && WellFormed(rest) && Braceless(k)
    ensures !(Placeholder(k) <= t + Text(rest))
  {
    var s, p := t + Text(rest), Placeholder(k);
    if p <= s {
      var tail := t[1..] + Text(rest);
      assert s[1..] == tail;
      assert p[1] == s[1] == tail[0] == '{';
      assert tail[1..] == s[2..];
      assert p[2..][..|k|] == k && p[2 + |k|] == '}';
      assert s[2..][..|k|] == p[2..][..|k|];
      assert s[2..][|k|] == p[2 + |k|];
      NothingClosesAfterBrace(t[1..], rest, k);
      assert false;
    }
  }

  /** If no match starts at `c`, it is copied. */
  lemma Pushed(c: char, t: string, s: string, pattern: string, v: string)
    requires pattern != "" && !(pattern <= [c] + (t + s))
    requires ReplaceAll(t + s, pattern, v) == t + ReplaceAll(s, pattern, v)
    ensures ReplaceAll(([c] + t) + s, pattern, v) == ([c] + t) + ReplaceAll(s, pattern, v)
  {
    var done := ReplaceAll(s, pattern, v);
    Regroup([c], t, s);
    assert ([c] + (t + s))[1..] == t + s;
    Regroup([c], t, done);
  }

  /** No placeholder begins inside literal text. */
  lemma {:induction false} PassesLiteral(t: string, rest: seq<Token>, k: Key, v: string)
    requires '}' !in t && WellFormed(rest) && Braceless(k)
    ensures ReplaceAll(t + Text(rest), Placeholder(k), v) == t + ReplaceAll(Text(rest), Placeholder(k), v)
    decreases |t|
  {
    if t == "" {
      assert t + Text(rest) == Text(rest);
    } else {
      NoPlaceholderStarts(t, rest, k);
      PassesLiteral(t[1..], rest, k, v);
      assert [t[0]] + t[1..] == t;
      Regroup([t[0]], t[1..], Text(rest));
      Pushed(t[0], t[1..], Text(rest), Placeholder(k), v);
    }
  }

  lemma {:induction false} PassesPlain(p: string, s: string, k: Key, v: string)
    requires '{' !in p
    ensures ReplaceAll(p + s, Placeholder(k), v) == p + ReplaceAll(s, Placeholder(k), v)
  {
    if p == "" {
      assert p + s == s;
    } else {
      PassesPlain(p[1..], s, k, v);
      assert [p[0]] + p[1..] == p;
      assert ([p[0]] + (p[1..] + s))[0] != Placeholder(k)[0];
      Pushed(p[0], p[1..], s, Placeholder(k), v);
    }
  }

  lemma OnlyOwnPlaceholder(h: Key, k: Key, s: string)
    requires Braceless(h) && Braceless(k) && Placeholder(k) <= Placeholder(h) + s
    ensures h == k
  {
    var p, q := Placeholder(k), Placeholder(h) + s;
    assert forall i :: 0 <= i < |k| ==> p[2 + i] == k[i];
    assert forall i :: 0 <= i < |h| ==> q[2 + i] == h[i];
    assert p[2 + |k|] == '}' && q[2 + |h|] == '}';
    assert forall i :: 0 <= i < |p| ==> p[i] == q[i];
    if |k| == |h| {
      assert forall i :: 0 <= i < |k| ==> p[2 + i] == k[i] && q[2 + i] == h[i];
      assert k == h;
    }
  }

  lemma {:induction false} PassesOtherHole(h: Key, s: string, k: Key, v: string)
    requires Braceless(h) && Braceless(k) && h != k
    ensures ReplaceAll(Placeholder(h) + s, Placeholder(k), v) == Placeholder(h) + ReplaceAll(s, Placeholder(k), v)
  {
    var p, all := Placeholder(k), Placeholder(h) + s;
    var tail := h + "}}";
    if p <= all {
      OnlyOwnPlaceholder(h, k, s);
      assert false;
    }
    assert all[1..] == "{" + tail + s && all[1..][1..] == tail + s;
    assert !(p <= all[1..]) by {
      assert p[1] == '{' && all[1..][1] == tail[0];
      assert tail[0] != '{';
    }
    PassesPlain(tail, s, k, v);
  }

  /** Replacing the placeholder's text is replacing the placeholder: nothing else matches. */
  lemma {:induction false} ReplacesItsHoles(tokens: seq<Token>, k: Key, value: seq<Token>)
    requires WellFormed(tokens) && Braceless(k)
    ensures ReplaceAll(Text(tokens), Placeholder(k), Text(value)) == Text(Filled(tokens, map[k := value]))
  {
    if tokens != [] {
      var v, rest := Text(value), tokens[1..];
      assert WellFormedToken(tokens[0]);
      ReplacesItsHoles(rest, k, value);
      match tokens[0]
      case Literal(t) =>
        PassesLiteral(t, rest, k, v);
        TextAppend([tokens[0]], Filled(rest, map[k := value]));
      case Hole(h) =>
        var s := Text(tokens);
        if h == k {
          assert Placeholder(k) <= s && s[|Placeholder(k)|..] == Text(rest);
          TextAppend(value, Filled(rest, map[k := value]));
        } else {
          PassesOtherHole(h, Text(rest), k, v);
          TextAppend([tokens[0]], Filled(rest, map[k := value]));
        }
    }
  }

  /* ---- All replacements ---- */

  /** A value mentions no other argument's placeholder, unless that argument stands for itself. */
  predicate NoCrossMention(args: map<Key, seq<Token>>) {
    forall a, b :: a in args && b in args && a != b && Hole(b) in args[a] ==> Text(args[b]) == Placeholder(b)
  }

  /** Every order of the replacements gives what filling in all at once gives, on every template. */
  ghost predicate SameInEveryOrder(args: map<Key, seq<Token>>) {
    forall tokens, order | WellFormed(tokens) && Enumerates(order, args.Keys) ::
      InOrder(Text(tokens), Texts(args), order) == Text(Filled(tokens, args))
  }

  /** On every template, any two orders of the replacements give the same text. */
  ghost predicate OrdersAgree(args: map<Key, seq<Token>>) {
    forall tokens, p, q | WellFormed(tokens) && Enumerates(p, args.Keys) && Enumerates(q, args.Keys) ::
      InOrder(Text(tokens), Texts(args), p) == InOrder(Text(tokens), Texts(args), q)
  }

  function Restricted(args: map<Key, seq<Token>>, keys: set<Key>): map<Key, seq<Token>> {
    map k | k in args && k in keys :: args[k]
  }

  lemma {:induction false} Settled(tokens: seq<Token>, k: Key, value: seq<Token>)
    requires Hole(k) in tokens ==> Text(value) == Placeholder(k)
    ensures Text(Filled(tokens, map[k := value])) == Text(tokens)
  {
    if tokens != [] {
      assert forall t :: t in tokens[1..] ==> t in tokens;
      Settled(tokens[1..], k, value);
      if tokens[0] == Hole(k) {
        assert tokens[0] in tokens;
        TextAppend(value, Filled(tokens[1..], map[k := value]));
      } else {
        TextAppend([tokens[0]], Filled(tokens[1..], map[k := value]));
      }
    }
  }

  lemma OneMoreToken(token: Token, args: map<Key, seq<Token>>, done: set<Key>, k: Key)
    requires k in args && k !in done && NoCrossMention(args)
    ensures Text(Filled(Filling(token, Restricted(args, done)), map[k := args[k]])) ==
            Text(Filling(token, Restricted(args, done + {k})))
  {
    var one := map[k := args[k]];
    if token == Hole(k) {
      FilledOne(token, one);
      assert Filling(token, Restricted(args, done)) == [token];
      assert Filling(token, Restricted(args, done + {k})) == args[k];
    } else {
      var filled := Filling(token, Restricted(args, done));
      assert filled == Filling(token, Restricted(args, done + {k}));
      Settled(filled, k, args[k]);
    }
  }

  /** Filling in one more argument after some is filling in them all. */
  lemma {:induction false} OneMore(tokens: seq<Token>, args: map<Key, seq<Token>>, done: set<Key>, k: Key)
    requires k in args && k !in done && NoCrossMention(args)
    ensures Text(Filled(Filled(tokens, Restricted(args, done)), map[k := args[k]])) ==
            Text(Filled(tokens, Restricted(args, done + {k})))
  {
    if tokens != [] {
      var before, one, after := Restricted(args, done), map[k := args[k]], Restricted(args, done + {k});
      var head, rest := Filling(tokens[0], before), Filled(tokens[1..], before);
      OneMore(tokens[1..], args, done, k);
      OneMoreToken(tokens[0], args, done, k);
      FilledAppend(head, rest, one);
      TextAppend(Filled(head, one), Filled(rest, one));
      TextAppend(Filling(tokens[0], after), Filled(tokens[1..], after));
    }
  }

  lemma {:induction false} RestInAnyOrder(tokens: seq<Token>, args: map<Key, seq<Token>>, done: set<Key>,
                                          order: seq<Key>)
    requires WellFormed(tokens) && WellFormedArgs(args) && NoCrossMention(args)
    requires done <= args.Keys && Enumerates(order, args.Keys - done)
    ensures InOrder(Text(Filled(tokens, Restricted(args, done))), Texts(args), order) == Text(Filled(tokens, args))
    decreases |order|
  {
    if order == [] {
      forall k | k in args ensures k in done {
        assert k !in order;
      }
      assert Restricted(args, done) == args;
    } else {
      var k := order[0];
      assert k in order;
      var sofar := Filled(tokens, Restricted(args, done));
      FilledWellFormed(tokens, Restricted(args, done));
      ReplacesItsHoles(sofar, k, args[k]);
      OneMore(tokens, args, done, k);
      forall q
        ensures q in order[1..] <==> q in args.Keys - (done + {k})
      {
        if q in order && q != k {
          var i :| 0 <= i < |order| && order[i] == q;
          assert order[1..][i - 1] == q;
        }
      }
      RestInAnyOrder(tokens, args, done + {k}, order[1..]);
    }
  }

  lemma {:induction false} InOrderAppend(text: string, args: map<Key, string>, p: seq<Key>, q: seq<Key>)
    requires forall k :: k in p + q ==> k in args
    ensures (forall k :: k in p ==> k in args) && forall k :: k in q ==> k in args
    ensures InOrder(text, args, p + q) == InOrder(InOrder(text, args, p), args, q)
    decreases |p|
  {
    assert forall k :: k in p || k in q ==> k in p + q;
    if p == [] {
      assert p + q == q;
    } else {
      assert (p + q)[1..] == p[1..] + q;
      InOrderAppend(ReplaceAll(text, Placeholder(p[0]), args[p[0]]), args, p[1..], q);
    }
  }

  lemma {:induction false} LengthMoves(tokens: seq<Token>, k: Key, value: seq<Token>)
    ensures |Text(value)| >= |Placeholder(k)| ==> |Text(Filled(tokens, map[k := value]))| >= |Text(tokens)|
    ensures |Text(value)| <= |Placeholder(k)| ==> |Text(Filled(tokens, map[k := value]))| <= |Text(tokens)|
    ensures |Text(value)| != |Placeholder(k)| && Hole(k) in tokens ==>
              |Text(Filled(tokens, map[k := value]))| != |Text(tokens)|
  {
    if tokens != [] {
      LengthMoves(tokens[1..], k, value);
      var head := if tokens[0] == Hole(k) then value else [tokens[0]];
      TextAppend(head, Filled(tokens[1..], map[k := value]));
      TextAppend([tokens[0]], tokens[1..]);
      assert [tokens[0]] + tokens[1..] == tokens;
    }
  }

  lemma SameLengthShows(p: string, q: string, x: string, y: string)
    requires |p| == |q| && p != q
    ensures p + x != q + y
  {
    assert (p + x)[..|p|] == p && (q + y)[..|q|] == q;
  }

  lemma CommonFront(p: string, x: string, y: string)
    requires x != y
    ensures p + x != p + y
  {
    assert (p + x)[|p|..] == x && (p + y)[|p|..] == y;
  }

  /** With a value as long as the placeholder, the first place filled in differs. */
  lemma {:induction false} SameLengthFillingShows(tokens: seq<Token>, k: Key, value: seq<Token>)
    requires Hole(k) in tokens && Text(value) != Placeholder(k) && |Text(value)| == |Placeholder(k)|
    ensures Text(Filled(tokens, map[k := value])) != Text(tokens)
  {
    var rest := Filled(tokens[1..], map[k := value]);
    if tokens[0] == Hole(k) {
      TextAppend(value, rest);
      SameLengthShows(Text(value), Placeholder(k), Text(rest), Text(tokens[1..]));
    } else {
      SameLengthFillingShows(tokens[1..], k, value);
      LaterShows(tokens[0], rest, tokens[1..]);
      assert tokens == [tokens[0]] + tokens[1..];
      assert Filled(tokens, map[k := value]) == [tokens[0]] + rest;
    }
  }

  lemma LaterShows(token: Token, filled: seq<Token>, rest: seq<Token>)
    requires Text(filled) != Text(rest)
    ensures Text([token] + filled) != Text([token] + rest)
  {
    TextCons(token, filled);
    TextCons(token, rest);
    CommonFront(Shown(token), Text(filled), Text(rest));
  }

  /** Filling in a placeholder that occurs changes the text, unless its value is the placeholder. */
  lemma FillingShows(tokens: seq<Token>, k: Key, value: seq<Token>)
    requires Hole(k) in tokens && Text(value) != Placeholder(k)
    ensures Text(Filled(tokens, map[k := value])) != Text(tokens)
  {
    LengthMoves(tokens, k, value);
    if |Text(value)| == |Placeholder(k)| {
      SameLengthFillingShows(tokens, k, value);
    }
  }

  lemma {:induction false} SomeOrder(keys: set<Key>) returns (order: seq<Key>)
    ensures Enumerates(order, keys)
  {
    if keys == {} {
      order := [];
    } else {
      var k :| k in keys;
      order := SomeOrder(keys - {k});
      order := order + [k];
    }
  }

  lemma SomeOrderEndingIn(keys: set<Key>, a: Key, b: Key) returns (others: seq<Key>)
    requires a in keys && b in keys && a != b
    ensures Enumerates(others + [a, b], keys) && a !in others
  {
    others := SomeOrder(keys - {a, b});
    var order := others + [a, b];
    forall k ensures k in order <==> k in keys {
      assert k in order <==> k in others || k == a || k == b;
    }
    forall i, j | 0 <= i < j < |order| ensures order[i] != order[j] {
      assert i < |others| ==> order[i] in others;
    }
  }

  lemma {:induction false} OthersLeaveItAlone(a: Key, args: map<Key, seq<Token>>, order: seq<Key>)
    requires Braceless(a) && WellFormedArgs(args) && a !in order && forall k :: k in order ==> k in args
    ensures InOrder(Placeholder(a), Texts(args), order) == Placeholder(a)
  {
    if order != [] {
      assert order[0] in order;
      var one := [Hole(a)];
      FilledOne(Hole(a), args);
      ReplacesItsHoles(one, order[0], args[order[0]]);
      Settled(one, order[0], args[order[0]]);
      OthersLeaveItAlone(a, args, order[1..]);
    }
  }

  /** With a mention, the order that replaces the mentioning key and then the mentioned one fills in
      the mention as well. */
  lemma MentionFilledIn(a: Key, b: Key, args: map<Key, seq<Token>>)
    requires WellFormedArgs(args) && a in args && b in args
    ensures InOrder(Placeholder(a), Texts(args), [a, b]) == Text(Filled(args[a], map[b := args[b]]))
  {
    FilledOne(Hole(a), map[a := args[a]]);
    ReplacesItsHoles([Hole(a)], a, args[a]);
    ReplacesItsHoles(args[a], b, args[b]);
    var texts := Texts(args);
    assert [a, b][1..] == [b] && [b][1..] == [];
    var once := ReplaceAll(Placeholder(a), Placeholder(a), texts[a]);
    assert once == Text(args[a]);
    assert InOrder(once, texts, [b]) == InOrder(ReplaceAll(once, Placeholder(b), texts[b]), texts, []);
  }

  /** Without the mentioned argument after it, the mentioning one leaves the mention as it is. */
  lemma MentionLeft(a: Key, args: map<Key, seq<Token>>)
    requires WellFormedArgs(args) && a in args
    ensures InOrder(Placeholder(a), Texts(args), [a]) == Text(args[a])
  {
    FilledOne(Hole(a), map[a := args[a]]);
    ReplacesItsHoles([Hole(a)], a, args[a]);
    assert [a][1..] == [];
  }

  /** Two orders that give two texts. */
  lemma MentionShows(a: Key, b: Key, args: map<Key, seq<Token>>) returns (p: seq<Key>, q: seq<Key>)
    requires WellFormedArgs(args) && a in args && b in args && a != b
    requires Hole(b) in args[a] && Text(args[b]) != Placeholder(b)
    ensures Enumerates(p, args.Keys) && Enumerates(q, args.Keys)
    ensures InOrder(Placeholder(a), Texts(args), p) == Text(args[a])
    ensures InOrder(Placeholder(a), Texts(args), q) != Text(args[a])
  {
    var others := SomeOrder(args.Keys - {a});
    p := others + [a];
    forall k ensures k in p <==> k in args.Keys {
      assert k in p <==> k in others || k == a;
    }
    InOrderAppend(Placeholder(a), Texts(args), others, [a]);
    OthersLeaveItAlone(a, args, others);
    MentionLeft(a, args);
    q := MentionShowsLater(a, b, args);
  }

  lemma MentionShowsLater(a: Key, b: Key, args: map<Key, seq<Token>>) returns (q: seq<Key>)
    requires WellFormedArgs(args) && a in args && b in args && a != b
    requires Hole(b) in args[a] && Text(args[b]) != Placeholder(b)
    ensures Enumerates(q, args.Keys) && InOrder(Placeholder(a), Texts(args), q) != Text(args[a])
  {
    var others := SomeOrderEndingIn(args.Keys, a, b);
    q := others + [a, b];
    assert forall k :: k in others ==> k in q;
    InOrderAppend(Placeholder(a), Texts(args), others, [a, b]);
    OthersLeaveItAlone(a, args, others);
    MentionFilledIn(a, b, args);
    FillingShows(args[a], b, args[b]);
  }

  /** The order in which the map of arguments is walked never shows, on any template, exactly when no
      value mentions another argument's placeholder; and then every order fills in all at once. */
  lemma OrderNeverShows(args: map<Key, seq<Token>>)
    requires WellFormedArgs(args)
    ensures OrdersAgree(args) <==> NoCrossMention(args)
    ensures SameInEveryOrder(args) <==> NoCrossMention(args)
  {
    if NoCrossMention(args) {
      forall tokens, order | WellFormed(tokens) && Enumerates(order, args.Keys)
        ensures InOrder(Text(tokens), Texts(args), order) == Text(Filled(tokens, args))
      {
        RestInAnyOrder(tokens, args, {}, order);
        Unfilled(tokens);
        assert Restricted(args, {}) == map[];
      }
    } else {
      var a, b :| a in args && b in args && a != b && Hole(b) in args[a] && Text(args[b]) != Placeholder(b);
      var p, q := MentionShows(a, b, args);
      FilledOne(Hole(a), args);
      assert WellFormed([Hole(a)]);
      assert InOrder(Text([Hole(a)]), Texts(args), p) != InOrder(Text([Hole(a)]), Texts(args), q);
      assert InOrder(Text([Hole(a)]), Texts(args), q) != Text(Filled([Hole(a)], args));
    }
  }

  lemma {:induction false} Unfilled(tokens: seq<Token>)
    ensures Filled(tokens, map[]) == tokens
  {
    if tokens != [] {
      Unfilled(tokens[1..]);
    }
  }

  function AsLiterals(args: map<Key, string>): map<Key, seq<Token>> {
    map k | k in args :: [Literal(args[k])]
  }

  /** Arguments whose values have no closing brace are filled in all at once, whatever the order. */
  lemma PlainValuesInAnyOrder(tokens: seq<Token>, args: map<Key, string>, order: seq<Key>)
    requires WellFormed(tokens) && Enumerates(order, args.Keys)
    requires forall k :: k in args ==> Braceless(k) && '}' !in args[k]
    ensures InOrder(Text(tokens), args, order) == Text(Filled(tokens, AsLiterals(args)))
  {
    var literals := AsLiterals(args);
    forall k | k in args ensures Text(literals[k]) == args[k] {
      assert literals[k][1..] == [];
    }
    assert Texts(literals) == args;
    OrderNeverShows(literals);
    assert literals.Keys == args.Keys;
  }

  ghost predicate InSomeOrder(template: string, args: map<Key, string>, translated: string) {
    exists order :: Enumerates(order, args.Keys) && translated == InOrder(template, args, order)
  }

  /** The substitution loop: the walk over the map is in no particular order. */
  method Substitute(template: string, args: map<Key, string>) returns (translated: string)
    ensures InSomeOrder(template, args, translated)
  {
    translated := template;
    ghost var order := [];
    var left := args.Keys;
    while left != {}
      invariant left <= args.Keys && Enumerates(order, args.Keys - left)
      invariant translated == InOrder(template, args, order)
      decreases |left|
    {
      var k :| k in left;
      InOrderAppend(template, args, order, [k]);
      assert [k][1..] == [];
      translated := ReplaceAll(translated, Placeholder(k), args[k]);
      order, left := order + [k], left - {k};
    }
  }
}
