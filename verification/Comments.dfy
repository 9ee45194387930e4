/** Stripping C-style block comments from a migration file. */
module Comments {
  import opened Wrappers
  import opened KeyNames

  datatype Comment = Comment(body: string, after: string)

  /** A text with comments in it: plain text, then comments, each with the plain text that follows it. */
  datatype Document = Document(first: string, comments: seq<Comment>)

  predicate PlainText(s: string) {
    !HasPair(s, '/', '*')
  }

  predicate CommentBody(s: string) {
    !HasPair(s, '*', '/')
  }

  predicate WellFormed(d: Document) {
    && PlainText(d.first)
    && forall i :: 0 <= i < |d.comments| ==> CommentBody(d.comments[i].body) && PlainText(d.comments[i].after)
  }

  function RenderComments(comments: seq<Comment>): string {
    if comments == [] then ""
    else "/*" + comments[0].body + "*/" + comments[0].after + RenderComments(comments[1..])
  }

  function Render(d: Document): string {
    d.first + RenderComments(d.comments)
  }

  function PlainOfComments(comments: seq<Comment>): string {
    if comments == [] then "" else comments[0].after + PlainOfComments(comments[1..])
  }

  /** The text without its comments. */
  function Plain(d: Document): string {
    d.first + PlainOfComments(d.comments)
  }

  /** Where a comment closes: the first star followed by a slash. */
  function Close(s: string): Option<nat> {
    if |s| < 2 then None
    else if s[0] == '*' && s[1] == '/' then Some(0)
    else match Close(s[1..]) case None => None case Some(n) => Some(n + 1)
  }

  predicate Opens(s: string) {
    |s| >= 2 && s[0] == '/' && s[1] == '*'
  }

  lemma {:induction false} CloseBounds(s: string)
    ensures Close(s).Some? ==> Close(s).value + 2 <= |s|
  {
    if |s| >= 2 {
      CloseBounds(s[1..]);
    }
  }

  /** A character before a document. */
  function WithChar(c: char, d: Document): Document {
    Document([c] + d.first, d.comments)
  }

  /** A comment before a document. */
  function WithComment(body: string, d: Document): Document {
    Document("", [Comment(body, d.first)] + d.comments)
  }

  /** The document that a text is; `None` when a comment does not close. */
  function Parse(s: string): Option<Document>
    decreases |s|
  {
    if s == "" then Some(Document("", []))
    else if Opens(s) then
      match Close(s[2..])
      case None => None
      case Some(n) =>
        CloseBounds(s[2..]);
        if Parse(s[n + 4..]).None? then None else Some(WithComment(s[2..n + 2], Parse(s[n + 4..]).value))
    else if Parse(s[1..]).None? then None
    else Some(WithChar(s[0], Parse(s[1..]).value))
  }

  lemma CharFirst(c: char, d: Document)
    ensures Render(WithChar(c, d)) == [c] + Render(d)
    ensures Plain(WithChar(c, d)) == [c] + Plain(d)
  {
  }

  lemma CommentFirst(body: string, d: Document)
    ensures Render(WithComment(body, d)) == "/*" + body + "*/" + Render(d)
    ensures Plain(WithComment(body, d)) == Plain(d)
    ensures WellFormed(WithComment(body, d)) <==> CommentBody(body) && WellFormed(d)
  {
    var e := WithComment(body, d);
    assert e.comments[1..] == d.comments;
    if WellFormed(e) {
      assert CommentBody(e.comments[0].body) && PlainText(e.comments[0].after);
      forall i | 0 <= i < |d.comments|
        ensures CommentBody(d.comments[i].body) && PlainText(d.comments[i].after)
      {
        assert e.comments[i + 1] == d.comments[i];
      }
    }
  }

  /** Reading a rendered comment. */
  lemma ParseComment(body: string, s: string)
    requires CommentBody(body)
    ensures var t := "/*" + body + "*/" + s;
      Parse(t) == if Parse(s).None? then None else Some(WithComment(body, Parse(s).value))
  {
    var t := "/*" + body + "*/" + s;
    assert t[2..] == body + "*/" + s;
    CloseAfterBody(body, s);
    assert t[|body| + 4..] == s && t[2..|body| + 2] == body;
  }

  /** What stripping gives: the plain text, or everything when a comment does not close. */
  function Stripped(s: string): string {
    match Parse(s)
    case None => s
    case Some(d) => Plain(d)
  }

  // Stripping undoes rendering, and nothing else is stripped

  lemma {:induction false} CloseIsFirst(s: string)
    ensures Close(s).Some? ==> var n := Close(s).value;
      n + 2 <= |s| && s[n] == '*' && s[n + 1] == '/' && CommentBody(s[..n])
    ensures Close(s).None? ==> !HasPair(s, '*', '/')
  {
    if |s| >= 2 && !(s[0] == '*' && s[1] == '/') {
      CloseIsFirst(s[1..]);
      assert s == [s[0]] + s[1..];
      PairCons(s[0], s[1..], '*', '/');
      if Close(s).Some? {
        var n := Close(s).value;
        assert s[..n] == [s[0]] + s[1..][..n - 1];
        PairCons(s[0], s[1..][..n - 1], '*', '/');
      }
    }
  }

  lemma {:induction false} CloseAfterBody(body: string, rest: string)
    requires CommentBody(body)
    ensures Close(body + "*/" + rest) == Some(|body|)
  {
    var s := body + "*/" + rest;
    if body != "" {
      assert body == [body[0]] + body[1..];
      PairCons(body[0], body[1..], '*', '/');
      CloseAfterBody(body[1..], rest);
      assert s[1..] == body[1..] + "*/" + rest;
      assert |body| == 1 ==> s[1] == '*';
      assert |body| > 1 ==> body[0] == s[0] && body[1] == s[1];
    }
  }

  /** A rendered document parses to itself. */
  lemma {:induction false} ParseRender(d: Document)
    requires WellFormed(d)
    ensures Parse(Render(d)) == Some(d)
    decreases |d.comments|, |d.first|
  {
    if d.first != "" {
      ParseRenderChar(d);
    } else if d.comments != [] {
      var c := d.comments[0];
      var rest := Document(c.after, d.comments[1..]);
      assert d == WithComment(c.body, rest);
      CommentFirst(c.body, rest);
      ParseRender(rest);
      ParseComment(c.body, Render(rest));
    }
  }

  lemma ParseRenderChar(d: Document)
    requires WellFormed(d) && d.first != ""
    ensures Parse(Render(d)) == Some(d)
    decreases |d.comments|, |d.first|, 0
  {
    var c, rest := d.first[0], Document(d.first[1..], d.comments);
    assert d.first == [c] + rest.first;
    PairCons(c, rest.first, '/', '*');
    ParseRender(rest);
    CharFirst(c, rest);
    var s := Render(d);
    assert s == [c] + Render(rest) && s[1..] == Render(rest);
    assert rest.first == "" && d.comments != [] ==> s[1] == '/';
    assert rest.first != "" ==> s[1] == rest.first[0];
    assert !Opens(s);
  }

  predicate ParsesBack(s: string) {
    Parse(s).Some? ==> WellFormed(Parse(s).value) && Render(Parse(s).value) == s
  }

  lemma CommentParsesBack(s: string, n: nat)
    requires Opens(s) && Close(s[2..]) == Some(n) && n + 4 <= |s| && ParsesBack(s[n + 4..])
    ensures ParsesBack(s)
  {
    var body, rest := s[2..n + 2], s[n + 4..];
    assert CommentBody(body) && s == "/*" + body + "*/" + rest by {
      CloseIsFirst(s[2..]);
      assert s[2..][..n] == body;
    }
    if Parse(rest).Some? {
      CommentFirst(body, Parse(rest).value);
    }
  }

  lemma CharParsesBack(s: string)
    requires s != "" && !Opens(s) && ParsesBack(s[1..])
    ensures ParsesBack(s)
  {
    if Parse(s[1..]).Some? {
      var rest := Parse(s[1..]).value;
      CharFirst(s[0], rest);
      PairCons(s[0], rest.first, '/', '*');
      assert rest.first != "" ==> rest.first[0] == s[1];
    }
  }

  /** A text that parses is the rendering of its document. */
  lemma {:induction false} RenderParse(s: string)
    ensures ParsesBack(s)
    decreases |s|
  {
    if s == "" {
    } else if !Opens(s) {
      RenderParse(s[1..]);
      CharParsesBack(s);
    } else if Close(s[2..]).Some? {
      CloseBounds(s[2..]);
      var n := Close(s[2..]).value;
      RenderParse(s[n + 4..]);
      CommentParsesBack(s, n);
    }
  }

  /**
   Stripping a rendered document gives its plain text; and a text that no document renders to has a comment
   that does not close, and is returned as it is.
   */
  lemma StrippingUndoesRendering(s: string)
    ensures forall d :: WellFormed(d) && Render(d) == s ==> Stripped(s) == Plain(d)
    ensures (forall d :: WellFormed(d) ==> Render(d) != s) ==> Stripped(s) == s
    ensures Parse(s).None? <==> forall d :: WellFormed(d) ==> Render(d) != s
  {
    forall d | WellFormed(d) && Render(d) == s
      ensures Parse(s) == Some(d)
    {
      ParseRender(d);
    }
    if Parse(s).Some? {
      RenderParse(s);
    }
  }

  function Shifted(n: Option<nat>, k: nat): Option<nat> {
    if n.None? then None else Some(n.value + k)
  }

  /** The inner loop: the index just behind the comment whose body starts at `start`, or `None`. */
  method SkipComment(content: string, start: nat) returns (end: Option<nat>)
    requires start <= |content|
    ensures end == Shifted(Close(content[start..]), start + 2)
    ensures end.Some? ==> start + 2 <= end.value <= |content|
  {
    var i := start;
    while i < |content|
      invariant start <= i <= |content|
      invariant Close(content[start..]) == Shifted(Close(content[i..]), i - start)
    {
      assert content[i..][1..] == content[i + 1..];
      if content[i] == '*' && i + 1 < |content| && content[i + 1] == '/' {
        return Some(i + 2);
      }
      i := i + 1;
    }
    return None;
  }

  /** What is left to strip at index `i`, with `out` put out so far. */
  predicate Stripping(content: string, i: nat, out: string)
    requires i <= |content|
  {
    && (Parse(content).Some? <==> Parse(content[i..]).Some?)
    && (Parse(content).Some? ==> Plain(Parse(content).value) == out + Plain(Parse(content[i..]).value))
  }

  /** What a first character, a first comment and an open comment do to the plain text. */
  lemma PlainAfterChar(s: string)
    requires s != "" && !Opens(s)
    ensures Parse(s).Some? <==> Parse(s[1..]).Some?
    ensures Parse(s).Some? ==> Plain(Parse(s).value) == [s[0]] + Plain(Parse(s[1..]).value)
  {
    if Parse(s).Some? {
      CharFirst(s[0], Parse(s[1..]).value);
    }
  }

  lemma PlainAfterComment(s: string, n: nat)
    requires Opens(s) && Close(s[2..]) == Some(n) && n + 4 <= |s|
    ensures Parse(s).Some? <==> Parse(s[n + 4..]).Some?
    ensures Parse(s).Some? ==> Plain(Parse(s).value) == Plain(Parse(s[n + 4..]).value)
  {
    var body, rest := s[2..n + 2], s[n + 4..];
    assert Parse(s) == if Parse(rest).None? then None else Some(WithComment(body, Parse(rest).value));
    if Parse(rest).Some? {
      CommentFirst(body, Parse(rest).value);
    }
  }

  lemma OpenComment(s: string)
    requires Opens(s) && Close(s[2..]).None?
    ensures Parse(s).None?
  {
  }

  lemma StripChar(content: string, i: nat, out: string)
    requires i < |content| && Stripping(content, i, out) && !Opens(content[i..])
    ensures Stripping(content, i + 1, out + [content[i]])
  {
    var rest := content[i..];
    assert rest[1..] == content[i + 1..] && rest[0] == content[i];
    PlainAfterChar(rest);
  }

  lemma StripComment(content: string, i: nat, out: string, end: nat)
    requires i + 2 <= |content| && Stripping(content, i, out) && Opens(content[i..])
    requires Shifted(Close(content[i + 2..]), i + 4) == Some(end) && end <= |content|
    ensures Stripping(content, end, out)
  {
    var rest, n := content[i..], Close(content[i + 2..]).value;
    assert rest[2..] == content[i + 2..] && rest[n + 4..] == content[end..];
    PlainAfterComment(rest, n);
  }

  lemma StripOpen(content: string, i: nat, out: string)
    requires i + 2 <= |content| && Stripping(content, i, out) && Opens(content[i..])
    requires Close(content[i + 2..]).None?
    ensures Stripped(content) == content
  {
    assert content[i..][2..] == content[i + 2..];
    OpenComment(content[i..]);
  }

  lemma StripDone(content: string, out: string)
    requires Stripping(content, |content|, out)
    ensures Stripped(content) == out
  {
    assert content[|content|..] == "" && out + "" == out;
  }

  /** `strip_block_comments`. */
  method StripBlockComments(content: string) returns (result: string)
    ensures result == Stripped(content)
  {
    var out := "";
    var i := 0;
    assert content[0..] == content;
    while i < |content|
      invariant 0 <= i <= |content| && Stripping(content, i, out)
    {
      var c := content[i];
      if c == '/' && i + 1 < |content| && content[i + 1] == '*' {
        var end := SkipComment(content, i + 2);
        if end.None? {
          StripOpen(content, i, out);
          return content;
        }
        StripComment(content, i, out, end.value);
        i := end.value;
      } else {
        StripChar(content, i, out);
        out := out + [c];
        i := i + 1;
      }
    }
    StripDone(content, out);
    return out;
  }
}
