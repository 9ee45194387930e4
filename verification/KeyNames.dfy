/** Key names: which strings the validator accepts. */
module KeyNames {
  import opened Wrappers

  const MAX_KEY_NAME_LEN: nat := 256

  datatype KeyValidationError = Empty | TooLong | InvalidChars

  datatype Unit = Unit

  predicate IsAllowed(c: char) {
    || 'a' <= c <= 'z' || 'A' <= c <= 'Z' || '0' <= c <= '9'
    || c == '_' || c == '-' || c == '.' || c == '/'
  }

  /** The two characters occur side by side. */
  predicate HasPair(s: string, a: char, b: char) {
    exists i :: 0 <= i < |s| - 1 && s[i] == a && s[i + 1] == b
  }

  function Split(s: string): (r: seq<string>)
    ensures |r| > 0
  {
    if s == "" then [""]
    else if s[0] == '/' then [""] + Split(s[1..])
    else var rest := Split(s[1..]); [[s[0]] + rest[0]] + rest[1..]
  }

  function Join(segments: seq<string>): string
    requires |segments| > 0
  {
    if |segments| == 1 then segments[0] else segments[0] + "/" + Join(segments[1..])
  }

  predicate StartsWith(s: string, c: char) {
    |s| > 0 && s[0] == c
  }

  predicate EndsWith(s: string, c: char) {
    |s| > 0 && s[|s| - 1] == c
  }

  function ValidateKey(key: string): Result<Unit, KeyValidationError> {
    if key == "" then Err(Empty)
    else if |key| > MAX_KEY_NAME_LEN then Err(TooLong)
    else if exists i :: 0 <= i < |key| && !IsAllowed(key[i]) then Err(InvalidChars)
    else if HasPair(key, '.', '.') || StartsWith(key, '/') || EndsWith(key, '/') || HasPair(key, '/', '/') then
      Err(InvalidChars)
    else if exists i :: 0 <= i < |Split(key)| && (Split(key)[i] == "" || StartsWith(Split(key)[i], '.')) then
      Err(InvalidChars)
    else Ok(Unit)
  }

  /** A path segment: letters, digits, underscores, hyphens and dots, not empty, no leading dot, no two dots in a row. */
  predicate GoodSegment(s: string) {
    && s != "" && s[0] != '.'
    && (forall i :: 0 <= i < |s| - 1 ==> !(s[i] == '.' && s[i + 1] == '.'))
    && forall i :: 0 <= i < |s| ==> var c := s[i];
      'a' <= c <= 'z' || 'A' <= c <= 'Z' || '0' <= c <= '9' || c == '_' || c == '-' || c == '.'
  }

  predicate GoodPath(segments: seq<string>) {
    |segments| > 0 && forall i :: 0 <= i < |segments| ==> GoodSegment(segments[i])
  }

  lemma PairCons(c: char, s: string, a: char, b: char)
    ensures HasPair([c] + s, a, b) <==> (c == a && StartsWith(s, b)) || HasPair(s, a, b)
  {
    var t := [c] + s;
    if HasPair(t, a, b) {
      var i :| 0 <= i < |t| - 1 && t[i] == a && t[i + 1] == b;
      assert i > 0 ==> s[i - 1] == a && s[i] == b;
    }
    if c == a && StartsWith(s, b) {
      assert t[0] == a && t[1] == b;
    }
    if HasPair(s, a, b) {
      var i :| 0 <= i < |s| - 1 && s[i] == a && s[i + 1] == b;
      assert t[i + 1] == a && t[i + 2] == b;
    }
  }

  lemma {:induction false} JoinSplit(s: string)
    ensures Join(Split(s)) == s
  {
    if s != "" {
      var rest := Split(s[1..]);
      JoinSplit(s[1..]);
      if s[0] == '/' {
        assert Split(s)[1..] == rest;
      } else {
        var head := [s[0]] + rest[0];
        assert Split(s)[1..] == rest[1..];
        if |rest| > 1 {
          assert Join(Split(s)) == head + "/" + Join(rest[1..]);
        }
      }
    }
  }

  predicate Slashless(s: string) {
    forall i :: 0 <= i < |s| ==> s[i] != '/'
  }

  lemma {:induction false} SplitJoin(segments: seq<string>)
    requires |segments| > 0
    requires forall i :: 0 <= i < |segments| ==> Slashless(segments[i])
    ensures Split(Join(segments)) == segments
    decreases |segments|, |segments[0]|
  {
    var s := Join(segments);
    if segments[0] == "" {
      if |segments| > 1 {
        assert s == "/" + Join(segments[1..]);
        assert s[1..] == Join(segments[1..]);
        SplitJoin(segments[1..]);
      }
    } else {
      var shorter := [segments[0][1..]] + segments[1..];
      assert Slashless(segments[0]);
      SplitJoin(shorter);
      assert shorter[1..] == segments[1..];
      assert s[0] == segments[0][0];
      assert s[1..] == Join(shorter);
      assert [s[0]] + shorter[0] == segments[0];
      assert Split(s) == [[s[0]] + shorter[0]] + shorter[1..];
    }
  }

  /** Segments hold the characters of the string and no slash. */
  lemma {:induction false} SplitCharacters(s: string)
    requires forall i :: 0 <= i < |s| ==> IsAllowed(s[i])
    ensures forall j :: 0 <= j < |Split(s)| ==>
      forall i :: 0 <= i < |Split(s)[j]| ==> IsAllowed(Split(s)[j][i]) && Split(s)[j][i] != '/'
  {
    if s != "" {
      SplitCharacters(s[1..]);
    }
  }

  predicate SomePair(segments: seq<string>, a: char, b: char) {
    exists j :: 0 <= j < |segments| && HasPair(segments[j], a, b)
  }

  lemma SomePairCons(head: string, rest: seq<string>, a: char, b: char)
    ensures SomePair([head] + rest, a, b) <==> HasPair(head, a, b) || SomePair(rest, a, b)
  {
    var all := [head] + rest;
    if HasPair(head, a, b) {
      assert HasPair(all[0], a, b);
    }
    if SomePair(rest, a, b) {
      var j :| 0 <= j < |rest| && HasPair(rest[j], a, b);
      assert HasPair(all[j + 1], a, b);
    }
    if SomePair(all, a, b) {
      var j :| 0 <= j < |all| && HasPair(all[j], a, b);
      assert j > 0 ==> HasPair(rest[j - 1], a, b);
    }
  }

  lemma {:induction false} SplitFirst(s: string)
    ensures if s == "" || s[0] == '/' then Split(s)[0] == "" else StartsWith(Split(s)[0], s[0])
  {
  }

  /** Two characters other than the slash are side by side in a string just when they are in one of its segments. */
  lemma {:induction false} PairsStayInSegments(s: string, a: char, b: char)
    requires a != '/' && b != '/'
    ensures HasPair(s, a, b) <==> SomePair(Split(s), a, b)
  {
    if s == "" {
      assert Split(s)[0] == "";
    } else {
      var rest := Split(s[1..]);
      PairsStayInSegments(s[1..], a, b);
      PairCons(s[0], s[1..], a, b);
      assert s == [s[0]] + s[1..];
      SplitFirst(s[1..]);
      if s[0] == '/' {
        SomePairCons("", rest, a, b);
      } else {
        SomePairCons([s[0]] + rest[0], rest[1..], a, b);
        SomePairCons(rest[0], rest[1..], a, b);
        assert rest == [rest[0]] + rest[1..];
        PairCons(s[0], rest[0], a, b);
      }
    }
  }

  predicate SomeEmpty(segments: seq<string>) {
    exists j :: 0 <= j < |segments| && segments[j] == ""
  }

  lemma SomeEmptyCons(head: string, rest: seq<string>)
    ensures SomeEmpty([head] + rest) <==> head == "" || SomeEmpty(rest)
  {
    var all := [head] + rest;
    if head == "" {
      assert all[0] == "";
    }
    if SomeEmpty(rest) {
      var j :| 0 <= j < |rest| && rest[j] == "";
      assert all[j + 1] == "";
    }
    if SomeEmpty(all) {
      var j :| 0 <= j < |all| && all[j] == "";
      assert j > 0 ==> rest[j - 1] == "";
    }
  }

  lemma {:induction false} LaterSegments(s: string)
    ensures SomeEmpty(Split(s)[1..]) <==> EndsWith(s, '/') || HasPair(s, '/', '/')
  {
    if s != "" {
      var rest := Split(s[1..]);
      LaterSegments(s[1..]);
      SplitFirst(s[1..]);
      assert s == [s[0]] + s[1..];
      PairCons(s[0], s[1..], '/', '/');
      if s[0] == '/' {
        assert Split(s)[1..] == rest == [rest[0]] + rest[1..];
        SomeEmptyCons(rest[0], rest[1..]);
      } else {
        assert Split(s)[1..] == rest[1..];
      }
    }
  }

  /** The test for empty segments alone finds a leading, a trailing and a double slash. */
  lemma SlashChecksFollow(s: string)
    requires s != ""
    ensures SomeEmpty(Split(s)) <==> StartsWith(s, '/') || EndsWith(s, '/') || HasPair(s, '/', '/')
  {
    LaterSegments(s);
    SplitFirst(s);
    assert Split(s) == [Split(s)[0]] + Split(s)[1..];
    SomeEmptyCons(Split(s)[0], Split(s)[1..]);
  }

  lemma {:induction false} JoinCharacters(segments: seq<string>)
    requires GoodPath(segments)
    ensures Join(segments) != ""
    ensures forall i :: 0 <= i < |Join(segments)| ==> IsAllowed(Join(segments)[i])
  {
    assert GoodSegment(segments[0]);
    if |segments| > 1 {
      assert forall i :: 1 <= i < |segments| ==> GoodSegment(segments[i]);
      JoinCharacters(segments[1..]);
    }
  }

  /** A joined good path passes every test but the length. */
  lemma GoodPathAccepted(segments: seq<string>)
    requires GoodPath(segments) && |Join(segments)| <= MAX_KEY_NAME_LEN
    ensures ValidateKey(Join(segments)).Ok?
  {
    var key := Join(segments);
    JoinCharacters(segments);
    forall i | 0 <= i < |segments|
      ensures Slashless(segments[i])
    {
      assert GoodSegment(segments[i]);
    }
    SplitJoin(segments);
    PairsStayInSegments(key, '.', '.');
    SlashChecksFollow(key);
    assert forall i :: 0 <= i < |segments| ==> GoodSegment(segments[i]);
  }

  lemma AcceptedIsGoodPath(key: string)
    requires ValidateKey(key).Ok?
    ensures GoodPath(Split(key)) && Join(Split(key)) == key
  {
    JoinSplit(key);
    SplitCharacters(key);
    PairsStayInSegments(key, '.', '.');
    forall i | 0 <= i < |Split(key)|
      ensures GoodSegment(Split(key)[i])
    {
      assert !HasPair(Split(key)[i], '.', '.') by {
        assert !SomePair(Split(key), '.', '.');
      }
    }
  }

  /** The validator accepts exactly the names of 1 to 256 bytes that are the slash-join of good segments. */
  lemma AcceptedExactly(key: string)
    ensures ValidateKey(key).Ok?
      <==> 1 <= |key| <= 256 && exists segments :: GoodPath(segments) && Join(segments) == key
  {
    if ValidateKey(key).Ok? {
      AcceptedIsGoodPath(key);
    }
    if 1 <= |key| <= 256 && exists segments :: GoodPath(segments) && Join(segments) == key {
      var segments :| GoodPath(segments) && Join(segments) == key;
      GoodPathAccepted(segments);
    }
  }

  /** The error tells why: nothing, more than 256 bytes, or no such path. */
  lemma ErrorsExactly(key: string)
    ensures ValidateKey(key) == Err(Empty) <==> key == ""
    ensures ValidateKey(key) == Err(TooLong) <==> |key| > 256
    ensures ValidateKey(key) == Err(InvalidChars)
      <==> 1 <= |key| <= 256 && !exists segments :: GoodPath(segments) && Join(segments) == key
  {
    AcceptedExactly(key);
  }

  lemma ShortNames()
    ensures ValidateKey("a").Ok? && ValidateKey("b").Ok?
  {
    assert Split("a")[0] == "a" && Split("b")[0] == "b";
  }
}
