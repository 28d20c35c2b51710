/** The text of NREQ and NREP messages. */
module Messages {
  import opened Options

  const ADDR_MAX_STRLEN := 16
  const NAME_MAX_LEN := 32
  const NREQ_MAX_LEN := 5 + ADDR_MAX_STRLEN
  const NREP_MAX_LEN := NREQ_MAX_LEN + NAME_MAX_LEN

  function PrintNreq(dst: string): string {
    "NREQ " + dst
  }

  function PrintNrep(dst: string, name: string): string {
    "NREP " + dst + " " + name
  }

  // strstr: does s contain w?
  predicate Contains(s: string, w: string) {
    w <= s || (s != "" && Contains(s[1..], w))
  }

  // A message taken apart; None is a NULL token.
  datatype Message = Request(dst: Option<string>) | Reply(dst: Option<string>, name: Option<string>) | Unrecognized

  // The length of the prefix of s without the character c.
  function Span(s: string, c: char): (n: nat)
    ensures n <= |s| && c !in s[..n] && (n < |s| ==> s[n] == c)
  {
    if s == "" || s[0] == c then 0 else 1 + Span(s[1..], c)
  }

  // strtok: skip separators, take a token up to the next one; and what remains.
  function Token(s: string, c: char): (Option<string>, string)
    decreases |s|
  {
    if s == "" then (None, "")
    else if s[0] == c then Token(s[1..], c)
    else
      var n := Span(s, c);
      (Some(s[..n]), if n < |s| then s[n + 1..] else "")
  }

  // How listen_for_nreqs reads a message.
  function Parse(s: string): Message {
    var (_, rest) := Token(s, ' ');
    var (dst, rest') := Token(rest, ' ');
    if Contains(s, "NREQ") then Request(dst)
    else if Contains(s, "NREP") then Reply(dst, Token(rest', ' ').0)
    else Unrecognized
  }

  ghost predicate Word(s: string) {
    s != "" && ' ' !in s
  }

  lemma SpanIs(a: string, c: char, b: string)
    requires c !in a
    ensures Span(a, c) == |a| && Span(a + [c] + b, c) == |a|
  {
    assert (a + [c] + b)[|a|] == c;
    assert forall i :: 0 <= i < |a| ==> (a + [c] + b)[i] == a[i];
  }

  lemma TokenIs(a: string, c: char, b: string)
    requires a != "" && c !in a
    ensures Token(a, c) == (Some(a), "") && Token(a + [c] + b, c) == (Some(a), b)
  {
    SpanIs(a, c, b);
    var s := a + [c] + b;
    assert s[0] == a[0] && a[0] in a && s[..|a|] == a && s[|a| + 1..] == b && a[..|a|] == a;
  }

  ghost predicate OccursAt(s: string, w: string, i: nat) {
    i + |w| <= |s| && s[i..i + |w|] == w
  }

  lemma {:induction false} Occurrence(s: string, w: string) returns (i: nat)
    requires Contains(s, w)
    ensures OccursAt(s, w, i) && i + |w| <= |s|
  {
    if w <= s {
      i := 0;
    } else {
      var k := Occurrence(s[1..], w);
      i := k + 1;
      assert s[i..i + |w|] == s[1..][k..k + |w|];
    }
  }

  lemma {:induction false} OccursContains(s: string, w: string, i: nat)
    requires OccursAt(s, w, i)
    ensures Contains(s, w)
    decreases i
  {
    if i == 0 {
    } else {
      assert s[1..][i - 1..i - 1 + |w|] == s[i..i + |w|];
      OccursContains(s[1..], w, i - 1);
    }
  }

  // The text an occurrence covers consists of the word's characters.
  lemma OccursOver(s: string, w: string, i: nat)
    requires OccursAt(s, w, i)
    ensures i + |w| <= |s| && forall k :: i <= k < i + |w| ==> s[k] in w
  {
    assert forall k :: i <= k < i + |w| ==> s[k] == s[i..i + |w|][k - i];
  }

  // An occurrence within a part of the text, counted from the part's start k.
  lemma OccursInPart(s: string, a: string, k: nat, w: string, i: nat)
    requires k + |a| <= |s| && s[k..k + |a|] == a && i + |w| <= |a|
    ensures OccursAt(s, w, k + i) <==> OccursAt(a, w, i)
  {
    assert forall j {:trigger a[j]} :: 0 <= j < |a| ==> s[k..k + |a|][j] == a[j] == s[k + j];
    assert s[k + i..k + i + |w|] == a[i..i + |w|];
  }

  // What a part contains, the whole contains.
  lemma ContainsPart(s: string, a: string, k: nat, w: string)
    requires k + |a| <= |s| && s[k..k + |a|] == a && Contains(a, w)
    ensures Contains(s, w)
  {
    hide Contains, OccursAt;
    var i := Occurrence(a, w);
    OccursInPart(s, a, k, w, i);
    OccursContains(s, w, k + i);
  }

  // An occurrence lies on one side of a character that is not in the word.
  lemma ContainsBeside(s: string, k: nat, w: string)
    requires k < |s| && s[k] !in w && Contains(s, w)
    ensures Contains(s[..k], w) || Contains(s[k + 1..], w)
  {
    hide Contains, OccursAt;
    var i := Occurrence(s, w);
    OccursOver(s, w, i);
    if i + |w| <= k {
      OccursInPart(s, s[..k], 0, w, i);
      OccursContains(s[..k], w, i);
    } else {
      OccursInPart(s, s[k + 1..], k + 1, w, i - k - 1);
      OccursContains(s[k + 1..], w, i - k - 1);
    }
  }

  // A word does not stretch over a separator.
  lemma ContainsApart(a: string, c: char, b: string, w: string)
    requires c !in w
    ensures Contains(a + [c] + b, w) <==> Contains(a, w) || Contains(b, w)
  {
    hide Contains;
    var s := a + [c] + b;
    assert s[..|a|] == a && s[|a| + 1..] == b && s[|a|] == c;
    assert s[0..0 + |a|] == a && s[|a| + 1..|a| + 1 + |b|] == b;
    if Contains(s, w) {
      ContainsBeside(s, |a|, w);
    }
    if Contains(a, w) {
      ContainsPart(s, a, 0, w);
    }
    if Contains(b, w) {
      ContainsPart(s, b, |a| + 1, w);
    }
  }

  // A printed request is read back.
  lemma ParseNreq(dst: string)
    requires Word(dst)
    ensures Parse(PrintNreq(dst)) == Request(Some(dst))
  {
    assert PrintNreq(dst) == "NREQ" + [' '] + dst;
    TokenIs("NREQ", ' ', dst);
    TokenIs(dst, ' ', "");
    assert "NREQ" <= PrintNreq(dst);
  }

  lemma NrepIsNotNreq()
    ensures !Contains("NREP", "NREQ")
  {
    var s := "NREP";
    assert s[3] != "NREQ"[3];
    assert !("NREQ" <= s) && !("NREQ" <= s[1..]) && !("NREQ" <= s[1..][1..]) && !("NREQ" <= s[1..][1..][1..]);
    assert s[1..][1..][1..][1..] == "";
  }

  // A printed reply is read back exactly when neither field contains "NREQ"; then it is taken for a request.
  lemma ParseNrep(dst: string, name: string)
    requires Word(dst) && Word(name)
    ensures Parse(PrintNrep(dst, name)) ==
            if Contains(dst, "NREQ") || Contains(name, "NREQ") then Request(Some(dst)) else Reply(Some(dst), Some(name))
  {
    var s, rest := PrintNrep(dst, name), dst + [' '] + name;
    assert s == "NREP" + [' '] + rest;
    TokenIs("NREP", ' ', rest);
    TokenIs(dst, ' ', name);
    TokenIs(name, ' ', "");
    ContainsApart("NREP", ' ', rest, "NREQ");
    ContainsApart(dst, ' ', name, "NREQ");
    NrepIsNotNreq();
    assert Contains(s, "NREP");
    hide Contains, Token;
  }

  // A name with a space in it is cut there.
  lemma ParseCutName(dst: string, first: string, rest: string)
    requires Word(dst) && Word(first)
    requires !Contains(dst, "NREQ") && !Contains(first, "NREQ") && !Contains(rest, "NREQ")
    ensures Parse(PrintNrep(dst, first + " " + rest)) == Reply(Some(dst), Some(first))
  {
    var name := first + [' '] + rest;
    var s, fields := PrintNrep(dst, name), dst + [' '] + name;
    assert s == "NREP" + [' '] + fields;
    TokenIs("NREP", ' ', fields);
    TokenIs(dst, ' ', name);
    TokenIs(first, ' ', rest);
    ContainsApart(first, ' ', rest, "NREQ");
    ContainsApart(dst, ' ', name, "NREQ");
    ContainsApart("NREP", ' ', fields, "NREQ");
    NrepIsNotNreq();
    assert Contains(s, "NREP");
    hide Contains, Token;
  }

  // With a dotted address and a host name as long as get_hostname can return, messages fit their buffers with the
  // terminator.
  lemma MessagesFit(dst: string, name: string)
    requires |dst| < ADDR_MAX_STRLEN && |name| <= NAME_MAX_LEN - 2
    ensures |PrintNreq(dst)| + 1 <= NREQ_MAX_LEN && |PrintNrep(dst, name)| + 1 <= NREP_MAX_LEN
  {
  }

  // A text is a request if "NREQ" occurs in it anywhere, and otherwise a reply if "NREP" does.
  lemma ParseKind(s: string)
    ensures Parse(s).Request? <==> exists i: nat :: OccursAt(s, "NREQ", i)
    ensures Parse(s).Reply? <==> !Parse(s).Request? && exists i: nat :: OccursAt(s, "NREP", i)
  {
    ContainsIs(s, "NREQ");
    ContainsIs(s, "NREP");
    hide Contains, OccursAt, Token;
  }

  lemma ContainsIs(s: string, w: string)
    ensures Contains(s, w) <==> exists i: nat :: OccursAt(s, w, i)
  {
    hide Contains, OccursAt;
    if Contains(s, w) {
      var i := Occurrence(s, w);
    }
    forall i: nat | OccursAt(s, w, i)
      ensures Contains(s, w)
    {
      OccursContains(s, w, i);
    }
  }

  function Spaces(k: nat): string {
    seq(k, _ => ' ')
  }

  lemma {:induction false} TokenSkips(k: nat, s: string)
    ensures Token(Spaces(k) + s, ' ') == Token(s, ' ')
  {
    if k == 0 {
      assert Spaces(k) + s == s;
    } else {
      assert (Spaces(k) + s)[1..] == Spaces(k - 1) + s;
      TokenSkips(k - 1, s);
    }
  }

  // The texts of the messages, and what a request without a destination reads as; further spaces are skipped.
  lemma ParseRequest(dst: string, k: nat)
    requires Word(dst)
    ensures PrintNreq(dst) == "NREQ" + [' '] + dst
    ensures Parse("NREQ" + [' '] + (Spaces(k) + dst)) == Request(Some(dst))
    ensures Parse("NREQ" + [' '] + Spaces(k)) == Request(None)
  {
    var s, t := "NREQ" + [' '] + (Spaces(k) + dst), "NREQ" + [' '] + Spaces(k);
    TokenIs("NREQ", ' ', Spaces(k) + dst);
    TokenIs("NREQ", ' ', Spaces(k));
    TokenIs(dst, ' ', "");
    TokenSkips(k, dst);
    TokenSkips(k, "");
    assert Spaces(k) + "" == Spaces(k);
    assert "NREQ" <= s && "NREQ" <= t;
    hide Token;
  }

  lemma PrintedReply(dst: string, name: string)
    ensures PrintNrep(dst, name) == "NREP" + [' '] + dst + [' '] + name
  {
  }

  // A reply that ends after its destination has no name.
  lemma ParseNameless(dst: string)
    requires Word(dst) && !Contains(dst, "NREQ")
    ensures Parse("NREP" + [' '] + dst) == Reply(Some(dst), None)
  {
    var s := "NREP" + [' '] + dst;
    TokenIs("NREP", ' ', dst);
    TokenIs(dst, ' ', "");
    ContainsApart("NREP", ' ', dst, "NREQ");
    NrepIsNotNreq();
    assert "NREP" <= s;
    hide Contains;
  }
}
