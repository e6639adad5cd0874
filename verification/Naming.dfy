/** Names inferred from type names: `camel_to_snake` in diesel_derives/src/util.rs and the table and
    foreign key names made from it. */
module Naming {
  import opened Prelude

  predicate IsUpper(c: char) { 'A' <= c <= 'Z' }

  predicate IsLower(c: char) { 'a' <= c <= 'z' }

  predicate Ascii(s: string) { forall i :: 0 <= i < |s| ==> s[i] < '\U{80}' }

  function Lower(c: char): char { if IsUpper(c) then c - 'A' + 'a' else c }

  function Upper(c: char): char { if IsLower(c) then c - 'a' + 'A' else c }

  /** What the loop makes of the characters after the first. */
  function SnakeTail(s: string): string {
    if s == "" then ""
    else SnakeTail(s[..|s| - 1]) + (if IsUpper(s[|s| - 1]) then ['_', Lower(s[|s| - 1])] else [s[|s| - 1]])
  }

  function Snake(name: string): string
    requires name != ""
  {
    [Lower(name[0])] + SnakeTail(name[1..])
  }

  method CamelToSnake(name: string) returns (result: string)
    requires name != "" && Ascii(name)
    ensures result == Snake(name)
  {
    result := [Lower(name[0])];
    for i := 1 to |name|
      invariant result == [Lower(name[0])] + SnakeTail(name[1..i])
    {
      var character := name[i];
      assert name[1..i + 1][..i - 1] == name[1..i];
      if IsUpper(character) {
        result := result + ['_'];
        result := result + [Lower(character)];
      } else {
        result := result + [character];
      }
    }
    assert name[1..|name|] == name[1..];
  }

  // ----- the inverse

  /** Reads `_` and a lower-case letter as an upper-case letter. */
  function CamelTail(s: string): string {
    if s == "" then ""
    else if UnderscoreBeforeLower(s) then [Upper(s[1])] + CamelTail(s[2..])
    else [s[0]] + CamelTail(s[1..])
  }

  function Camel(snake: string): string
    requires snake != ""
  {
    [Upper(snake[0])] + CamelTail(snake[1..])
  }

  /** The names that can be read back: the first character is no lower-case letter, and no underscore after
      it stands before a lower-case letter. */
  predicate Readable(name: string) {
    name != "" && !IsLower(name[0]) && ReadableTail(name[1..])
  }

  predicate ReadableTail(s: string) {
    s == "" || (!UnderscoreBeforeLower(s) && ReadableTail(s[1..]))
  }

  predicate UnderscoreBeforeLower(s: string) {
    |s| >= 2 && s[0] == '_' && IsLower(s[1])
  }

  lemma {:induction false} SnakeTailAppend(a: string, b: string)
    ensures SnakeTail(a + b) == SnakeTail(a) + SnakeTail(b)
    decreases |b|
  {
    if b == "" {
      assert a + b == a;
    } else {
      var last := |b| - 1;
      SnakeTailAppend(a, b[..last]);
      assert (a + b)[..|a + b| - 1] == a + b[..last];
    }
  }

  function Snaked(c: char): string { if IsUpper(c) then ['_', Lower(c)] else [c] }

  lemma SnakeTailFront(s: string)
    requires s != ""
    ensures SnakeTail(s) == Snaked(s[0]) + SnakeTail(s[1..])
  {
    SnakeTailAppend([s[0]], s[1..]);
    assert s == [s[0]] + s[1..];
    assert [s[0]][..0] == "";
  }

  lemma CamelTailStep(c: char, rest: string)
    requires IsUpper(c) || !UnderscoreBeforeLower([c] + rest)
    ensures CamelTail(Snaked(c) + rest) == [c] + CamelTail(rest)
  {
  }

  /** Reading back gives the tail exactly when it holds no underscore before a lower-case letter; otherwise
      it gives something shorter. */
  lemma {:induction false} TailRoundTripIff(s: string)
    ensures CamelTail(SnakeTail(s)) == s <==> ReadableTail(s)
    ensures |CamelTail(SnakeTail(s))| <= |s|
    ensures CamelTail(SnakeTail(s)) != s ==> |CamelTail(SnakeTail(s))| < |s|
    decreases |s|
  {
    if s != "" {
      SnakeTailFront(s);
      TailRoundTripIff(s[1..]);
      if UnderscoreBeforeLower(s) {
        TailRoundTripIff(s[2..]);
        SnakeTailFront(s[1..]);
        assert s[1..][1..] == s[2..];
        CollapsedPair(s[1], SnakeTail(s[2..]));
      } else {
        TailStart(s[1..]);
        CamelTailStep(s[0], SnakeTail(s[1..]));
        HeadAndTail(s, CamelTail(SnakeTail(s[1..])));
      }
    }
  }

  lemma HeadAndTail(s: string, back: string)
    requires s != ""
    ensures [s[0]] + back == s <==> back == s[1..]
  {
  }

  lemma CollapsedPair(c: char, rest: string)
    requires IsLower(c)
    ensures CamelTail(['_'] + ([c] + rest)) == [Upper(c)] + CamelTail(rest)
  {
    assert (['_'] + ([c] + rest))[2..] == rest;
  }

  /** A converted tail starts with a lower-case letter only if the tail itself does. */
  lemma TailStart(s: string)
    ensures SnakeTail(s) != "" ==> s != "" && (IsLower(SnakeTail(s)[0]) ==> IsLower(s[0]))
  {
    if s != "" { SnakeTailFront(s); }
  }

  /** The conversion can be undone exactly on readable names. */
  lemma SnakeRoundTripIff(name: string)
    requires name != "" && Ascii(name)
    ensures Camel(Snake(name)) == name <==> Readable(name)
  {
    var tail := name[1..];
    TailRoundTripIff(tail);
    assert Snake(name)[1..] == SnakeTail(tail);
    assert name == [name[0]] + tail;
    var back := Camel(Snake(name));
    assert back[1..] == CamelTail(SnakeTail(tail));
    assert back[0] == Upper(Lower(name[0]));
    assert back == name ==> back[1..] == tail;
  }

  /** Type names as Rust recommends them: an upper-case letter first, no underscore. */
  predicate TypeName(name: string) {
    name != "" && Ascii(name) && IsUpper(name[0]) && '_' !in name
  }

  function InferTableName(name: string): string
    requires name != ""
  {
    Snake(name) + "s"
  }

  function InferForeignKey(name: string): string
    requires name != ""
  {
    Snake(name) + "_id"
  }

  lemma SuffixCancels(a: string, b: string, suffix: string)
    requires a + suffix == b + suffix
    ensures a == b
  {
    assert |a| == |b|;
    assert (a + suffix)[..|a|] == a && (b + suffix)[..|b|] == b;
  }

  /** Different readable names infer different tables and different foreign keys. */
  lemma InferredNamesDistinct(a: string, b: string)
    requires Readable(a) && Readable(b) && Ascii(a) && Ascii(b)
    requires InferTableName(a) == InferTableName(b) || InferForeignKey(a) == InferForeignKey(b)
    ensures a == b
  {
    if InferTableName(a) == InferTableName(b) {
      SuffixCancels(Snake(a), Snake(b), "s");
    } else {
      SuffixCancels(Snake(a), Snake(b), "_id");
    }
    SnakeRoundTripIff(a);
    SnakeRoundTripIff(b);
  }

  lemma TypeNamesReadable(name: string)
    requires TypeName(name)
    ensures Readable(name)
  {
    NoUnderscoreReadable(name[1..]);
  }

  lemma {:induction false} NoUnderscoreReadable(s: string)
    requires '_' !in s
    ensures ReadableTail(s)
  {
    if s != "" { NoUnderscoreReadable(s[1..]); }
  }

  /** Different type names infer different tables and different foreign keys. */
  lemma TypeNamesDistinct(a: string, b: string)
    requires TypeName(a) && TypeName(b) && a != b
    ensures InferTableName(a) != InferTableName(b) && InferForeignKey(a) != InferForeignKey(b)
  {
    TypeNamesReadable(a);
    TypeNamesReadable(b);
    if InferTableName(a) == InferTableName(b) || InferForeignKey(a) == InferForeignKey(b) {
      InferredNamesDistinct(a, b);
    }
  }

  /** Every name with an underscore before a lower-case letter collides with another name. */
  lemma UnreadableNamesCollide(first: char, x: string, c: char, y: string)
    requires IsLower(c)
    ensures var a, b := [first] + (x + (['_', c] + y)), [first] + (x + ([Upper(c)] + y));
            a != b && InferTableName(a) == InferTableName(b) && InferForeignKey(a) == InferForeignKey(b)
  {
    var a, b := [first] + (x + (['_', c] + y)), [first] + (x + ([Upper(c)] + y));
    assert a[1..] == x + (['_', c] + y) && b[1..] == x + ([Upper(c)] + y);
    assert |a| == |b| + 1;
    PairSnaked(c);
    hide SnakeTail;
    SnakeTailAppend(x, ['_', c] + y);
    SnakeTailAppend(['_', c], y);
    SnakeTailAppend(x, [Upper(c)] + y);
    SnakeTailAppend([Upper(c)], y);
  }

  lemma PairSnaked(c: char)
    requires IsLower(c)
    ensures SnakeTail(['_', c]) == ['_', c] == SnakeTail([Upper(c)])
  {
    assert ['_', c][..1] == ['_'] && ['_'][..0] == "" && [Upper(c)][..0] == "";
    assert SnakeTail(['_']) == ['_'];
    assert Lower(Upper(c)) == c;
  }

  // ----- the readable name behind any name

  predicate NoUpper(s: string) { forall k :: 0 <= k < |s| ==> !IsUpper(s[k]) }

  lemma {:induction false} SnakeHasNoUpper(s: string)
    ensures NoUpper(SnakeTail(s))
    decreases |s|
  {
    if s != "" { SnakeHasNoUpper(s[..|s| - 1]); }
  }

  /** Converting what was read back gives the same snake case again. */
  lemma {:induction false} SnakeOfCamelTail(s: string)
    requires NoUpper(s)
    ensures SnakeTail(CamelTail(s)) == s
    decreases |s|
  {
    hide SnakeTail;
    EmptyTail();
    if s != "" {
      if UnderscoreBeforeLower(s) {
        SnakeOfCamelTail(s[2..]);
        CamelFront(Upper(s[1]), s[2..]);
        assert Snaked(Upper(s[1])) == s[..2] && s == s[..2] + s[2..];
      } else {
        SnakeOfCamelTail(s[1..]);
        CamelFront(s[0], s[1..]);
        assert s == [s[0]] + s[1..];
      }
    }
  }

  lemma {:induction false} CamelTailAscii(s: string)
    requires Ascii(s)
    ensures Ascii(CamelTail(s))
    decreases |s|
  {
    if s != "" { CamelTailAscii(if UnderscoreBeforeLower(s) then s[2..] else s[1..]); }
  }

  lemma CamelFront(c: char, rest: string)
    ensures SnakeTail([c] + CamelTail(rest)) == Snaked(c) + SnakeTail(CamelTail(rest))
  {
    hide CamelTail;
    SnakeTailFront([c] + CamelTail(rest));
    assert ([c] + CamelTail(rest))[1..] == CamelTail(rest);
  }

  lemma {:induction false} SnakeTailAscii(s: string)
    requires Ascii(s)
    ensures Ascii(SnakeTail(s))
    decreases |s|
  {
    if s != "" { SnakeTailAscii(s[..|s| - 1]); }
  }

  /** Behind every name there is exactly one readable name that infers the same table and foreign key; for a name
      that is not readable it is another name, so every such name collides. */
  lemma ReadableBehind(name: string)
    requires name != "" && Ascii(name)
    ensures var behind := Camel(Snake(name));
            && Readable(behind) && Ascii(behind)
            && InferTableName(behind) == InferTableName(name) && InferForeignKey(behind) == InferForeignKey(name)
            && (behind == name <==> Readable(name))
            && forall other :: Readable(other) && Ascii(other) && InferTableName(other) == InferTableName(name) ==> other == behind
  {
    var behind, tail := Camel(Snake(name)), SnakeTail(name[1..]);
    SnakeTailAscii(name[1..]);
    SnakeHasNoUpper(name[1..]);
    SnakeOfCamelTail(tail);
    CamelTailAscii(tail);
    assert Snake(name)[1..] == tail && behind[1..] == CamelTail(tail);
    assert Snake(behind) == Snake(name);
    SnakeRoundTripIff(name);
    SnakeRoundTripIff(behind);
    forall other | Readable(other) && Ascii(other) && InferTableName(other) == InferTableName(name)
      ensures other == behind
    {
      InferredNamesDistinct(other, behind);
    }
  }

  /** `foo` and `Foo` infer the same names, and so do `Foo_bar` and `FooBar`. */
  lemma NamesCollide()
    ensures InferTableName("foo") == InferTableName("Foo") == "foos"
    ensures InferForeignKey("foo") == InferForeignKey("Foo") == "foo_id"
    ensures InferTableName("Foo_bar") == InferTableName("FooBar") && InferForeignKey("Foo_bar") == InferForeignKey("FooBar")
  {
    FooSnaked();
    hide Snake, SnakeTail;
    assert "foo" + "s" == "foos" && "foo" + "_id" == "foo_id";
    UnreadableNamesCollide('F', "oo", 'b', "ar");
    FooBarSpelled();
  }

  lemma FooSnaked()
    ensures Snake("foo") == "foo" == Snake("Foo")
  {
    hide SnakeTail;
    EmptyTail();
    assert "foo"[1..] == "oo" == "Foo"[1..] && "oo"[1..] == "o" && "o"[1..] == "";
    SnakeTailFront("oo");
    SnakeTailFront("o");
    assert "o" + "" == "o" && "o" + "o" == "oo" && "f" + "oo" == "foo";
  }

  lemma FooBarSpelled()
    ensures ['F'] + ("oo" + (['_', 'b'] + "ar")) == "Foo_bar" && ['F'] + ("oo" + ([Upper('b')] + "ar")) == "FooBar"
  {
  }

  /** The names inferred from `FooBar`. */
  lemma FooBarInFull()
    ensures InferTableName("FooBar") == "foo_bars" && InferForeignKey("FooBar") == "foo_bar_id"
  {
    BarSnaked();
    hide SnakeTail;
    assert "FooBar"[1..] == "ooBar" && "ooBar"[1..] == "oBar" && "oBar"[1..] == "Bar";
    SnakeTailFront("ooBar");
    SnakeTailFront("oBar");
    assert "o" + "_bar" == "o_bar" && "o" + "o_bar" == "oo_bar";
    assert Snake("FooBar") == "f" + "oo_bar" == "foo_bar";
    assert "foo_bar" + "s" == "foo_bars" && "foo_bar" + "_id" == "foo_bar_id";
  }

  lemma BarSnaked()
    ensures SnakeTail("Bar") == "_bar"
  {
    hide SnakeTail;
    EmptyTail();
    assert "Bar"[1..] == "ar" && "ar"[1..] == "r" && "r"[1..] == "";
    SnakeTailFront("Bar");
    SnakeTailFront("ar");
    SnakeTailFront("r");
    assert "r" + "" == "r" && "a" + "r" == "ar" && "_b" + "ar" == "_bar";
  }

  lemma EmptyTail()
    ensures SnakeTail("") == ""
  {
  }
}
