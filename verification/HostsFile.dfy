/** The hosts file, read and rewritten line by line. */
module HostsFiles {
  import opened Options
  import opened Messages

  const READ_BUFFER := 512  // of get_name_by_addr
  const COPY_BUFFER := 100  // of remove_name and copy_file_content

  datatype Binding = Binding(addr: string, name: string)

  // One line of the file: address, tab, name, newline.
  function Line(b: Binding): string {
    b.addr + "\t" + b.name + "\n"
  }

  // The fields are words without tabs and newlines, and the line fits the buffer that looks names up.
  predicate Proper(b: Binding) {
    && b.addr != "" && b.name != ""
    && '\t' !in b.addr && '\n' !in b.addr && '\t' !in b.name && '\n' !in b.name
    && |Line(b)| < READ_BUFFER
  }

  function Render(bs: seq<Binding>): string {
    if bs == [] then "" else Line(bs[0]) + Render(bs[1..])
  }

  ghost predicate AllProper(bs: seq<Binding>) {
    forall i :: 0 <= i < |bs| ==> Proper(bs[i])
  }

  // The lines also fit the buffer that removes names.
  ghost predicate AllShort(bs: seq<Binding>) {
    forall i :: 0 <= i < |bs| ==> |Line(bs[i])| < COPY_BUFFER
  }

  // The bindings as a map; an earlier line wins.
  function MapOf(bs: seq<Binding>): map<string, string> {
    if bs == [] then map[] else MapOf(bs[1..])[bs[0].addr := bs[0].name]
  }

  // The bindings of other addresses.
  function Without(bs: seq<Binding>, addr: string): seq<Binding> {
    if bs == [] then []
    else (if bs[0].addr == addr then [] else [bs[0]]) + Without(bs[1..], addr)
  }

  // fgets with a buffer of n bytes: up to a newline, at most n - 1 characters; and the rest of the file.
  function ReadLine(s: string, n: nat): (string, string)
    requires 1 < n
  {
    var k := Span(s, '\n');
    var len := if k + 1 <= |s| then k + 1 else |s|;
    var taken := if len < n then len else n - 1;
    (s[..taken], s[taken..])
  }

  lemma ReadLineOf(b: Binding, bs: seq<Binding>, n: nat)
    requires Proper(b) && |Line(b)| < n
    ensures ReadLine(Line(b) + Render(bs), n) == (Line(b), Render(bs))
  {
    var front, s := b.addr + "\t" + b.name, Line(b) + Render(bs);
    assert s == front + ['\n'] + Render(bs);
    SpanIs(front, '\n', Render(bs));
    assert s[..|front| + 1] == Line(b) && s[|front| + 1..] == Render(bs);
  }

  // What strtok makes of a line: the address, and the name with the newline still on it.
  lemma LineTokens(b: Binding)
    requires Proper(b)
    ensures Token(Line(b), '\t') == (Some(b.addr), b.name + "\n")
    ensures Token(b.name + "\n", '\t') == (Some(b.name + "\n"), "")
  {
    assert Line(b) == b.addr + ['\t'] + (b.name + "\n");
    TokenIs(b.addr, '\t', b.name + "\n");
    TokenIs(b.name + "\n", '\t', "");
  }

  lemma {:induction false} RenderAppend(bs: seq<Binding>, b: Binding)
    ensures Render(bs + [b]) == Render(bs) + Line(b)
  {
    if bs == [] {
      assert bs + [b] == [b] && [b][1..] == [];
    } else {
      assert (bs + [b])[1..] == bs[1..] + [b];
      RenderAppend(bs[1..], b);
    }
  }

  lemma {:induction false} MapOfAppend(bs: seq<Binding>, b: Binding)
    requires b.addr !in MapOf(bs)
    ensures MapOf(bs + [b]) == MapOf(bs)[b.addr := b.name]
  {
    if bs == [] {
      assert bs + [b] == [b];
    } else {
      assert (bs + [b])[1..] == bs[1..] + [b];
      MapOfAppend(bs[1..], b);
    }
  }

  lemma {:induction false} MapOfWithout(bs: seq<Binding>, addr: string)
    ensures MapOf(Without(bs, addr)) == MapOf(bs) - {addr}
  {
    if bs == [] {
    } else {
      MapOfWithout(bs[1..], addr);
      assert bs == [bs[0]] + bs[1..];
      if bs[0].addr == addr {
        assert Without(bs, addr) == Without(bs[1..], addr);
        assert MapOf(bs) - {addr} == MapOf(bs[1..]) - {addr};
      } else {
        assert Without(bs, addr)[1..] == Without(bs[1..], addr);
        assert MapOf(bs) - {addr} == (MapOf(bs[1..]) - {addr})[bs[0].addr := bs[0].name];
      }
    }
  }

  lemma {:induction false} ProperWithout(bs: seq<Binding>, addr: string)
    requires AllProper(bs)
    ensures AllProper(Without(bs, addr))
  {
    if bs == [] {
    } else {
      ProperWithout(bs[1..], addr);
    }
  }

  lemma OwnLine(own: Binding)
    ensures Render([own]) == Line(own) && MapOf([own]) == map[own.addr := own.name]
  {
    assert [own] == [] + [own];
    RenderAppend([], own);
    MapOfAppend([], own);
    assert "" + Line(own) == Line(own);
  }

  class HostsFile {
    var content: string
    ghost var bindings: seq<Binding>

    ghost predicate Valid()
      reads this
    {
      AllProper(bindings) && content == Render(bindings)
    }

    // The node's own binding is put there at start.
    constructor (own: Binding)
      requires Proper(own)
      ensures Valid() && bindings == [own] && MapOf(bindings) == map[own.addr := own.name]
      ensures content == own.addr + "\t" + own.name + "\n"
    {
      content, bindings := Line(own), [own];
      new;
      OwnLine(own);
    }

    // get_name_by_addr: scan the lines; NULL is None.
    method GetNameByAddr(addr: string) returns (name: Option<string>)
      requires Valid()
      ensures name == if addr in MapOf(bindings) then Some(MapOf(bindings)[addr]) else None
    {
      var rest := content;
      ghost var bs := bindings;
      while rest != ""
        invariant rest == Render(bs) && AllProper(bs)
        invariant addr in MapOf(bindings) <==> addr in MapOf(bs)
        invariant addr in MapOf(bs) ==> MapOf(bindings)[addr] == MapOf(bs)[addr]
        decreases |bs|
      {
        FirstLine(bs, READ_BUFFER);
        var (line, rest') := ReadLine(rest, READ_BUFFER);
        var (cachedAddr, fields) := Token(line, '\t');
        if cachedAddr == Some(addr) {
          var (cachedName, _) := Token(fields, '\t');
          var text := cachedName.value;
          return Some(text[..|text| - 1]);
        }
        rest, bs := rest', bs[1..];
      }
      assert bs == [];
      return None;
    }

    // cache_name
    method CacheName(addr: string, name: string)
      requires Valid() && Proper(Binding(addr, name))
      modifies this
      ensures Valid() && (bindings == old(bindings) || bindings == old(bindings) + [Binding(addr, name)])
      ensures MapOf(bindings) == if addr in old(MapOf(bindings)) then old(MapOf(bindings))
          else old(MapOf(bindings))[addr := name]
      ensures content == if addr in old(MapOf(bindings)) then old(content)
          else old(content) + (addr + "\t" + name + "\n")
    {
      var cached := GetNameByAddr(addr);
      if cached.None? {
        RenderAppend(bindings, Binding(addr, name));
        MapOfAppend(bindings, Binding(addr, name));
        content := content + (addr + "\t" + name + "\n");
        bindings := bindings + [Binding(addr, name)];
      }
    }

    // remove_name: write the other lines to an auxiliary file and copy it back. Lines longer than the read buffer
    // are taken in chunks, of which only those that start with the address go.
    method RemoveName(addr: string)
      requires Valid()
      modifies this
      ensures content == OtherChunks(old(content), addr) && bindings == Without(old(bindings), addr)
      ensures MapOf(bindings) == old(MapOf(bindings)) - {addr}
      ensures AllRemovable(old(bindings), addr) ==> Valid()
    {
      var aux := OtherLines(content, addr);
      MapOfWithout(bindings, addr);
      ProperWithout(bindings, addr);
      if AllRemovable(bindings, addr) { RemovesLines(bindings, addr); }
      content := CopyContent(aux);
      bindings := Without(bindings, addr);
    }
  }

  // The first line of a file, read with a buffer of n bytes.
  lemma FirstLine(bs: seq<Binding>, n: nat)
    requires AllProper(bs) && bs != [] && |Line(bs[0])| < n && 1 < n
    ensures Render(bs) != "" && ReadLine(Render(bs), n) == (Line(bs[0]), Render(bs[1..]))
    ensures Token(Line(bs[0]), '\t') == (Some(bs[0].addr), bs[0].name + "\n")
    ensures Token(bs[0].name + "\n", '\t').0 == Some(bs[0].name + "\n")
  {
    assert Proper(bs[0]);
    ReadLineOf(bs[0], bs[1..], n);
    LineTokens(bs[0]);
  }

  // The file without the chunks that start with addr.
  function OtherChunks(s: string, addr: string): string
    decreases |s|
  {
    if s == "" then ""
    else
      var (line, rest) := ReadLine(s, COPY_BUFFER);
      (if Token(line, '\t').0 == Some(addr) then "" else line) + OtherChunks(rest, addr)
  }

  // Some chunk of s starts with addr.
  predicate HasChunk(s: string, addr: string)
    decreases |s|
  {
    s != "" &&
    var (line, rest) := ReadLine(s, COPY_BUFFER);
    Token(line, '\t').0 == Some(addr) || HasChunk(rest, addr)
  }

  // A line that remove_name handles as a whole: its own line if it fits the buffer, another line if no later chunk of
  // it looks like one for addr.
  predicate Removable(b: Binding, addr: string) {
    if b.addr == addr then |Line(b)| < COPY_BUFFER else !HasChunk(Line(b), addr)
  }

  ghost predicate AllRemovable(bs: seq<Binding>, addr: string) {
    forall i :: 0 <= i < |bs| ==> Removable(bs[i], addr)
  }

  // The loop of remove_name.
  method OtherLines(content: string, addr: string) returns (aux: string)
    ensures aux == OtherChunks(content, addr)
  {
    hide ReadLine, Token;
    aux := "";
    var rest := content;
    while rest != ""
      invariant aux + OtherChunks(rest, addr) == OtherChunks(content, addr)
      decreases |rest|
    {
      var (line, rest') := ReadLine(rest, COPY_BUFFER);
      var (cachedAddr, _) := Token(line, '\t');
      ReadLineShorter(rest, COPY_BUFFER);
      if cachedAddr != Some(addr) {
        assert aux + (line + OtherChunks(rest', addr)) == (aux + line) + OtherChunks(rest', addr);
        aux := aux + line;
      } else {
        assert "" + OtherChunks(rest', addr) == OtherChunks(rest', addr);
      }
      rest := rest';
    }
    assert aux + "" == aux;
  }

  lemma ReadLineShorter(s: string, n: nat)
    requires s != "" && 1 < n
    ensures ReadLine(s, n).0 != "" && s == ReadLine(s, n).0 + ReadLine(s, n).1
  {
  }

  // A chunk of a line never reaches beyond the line.
  lemma ReadLineWithin(front: string, rest: string, n: nat)
    requires '\n' !in front && 1 < n
    ensures ReadLine(front + "\n" + rest, n) ==
            (ReadLine(front + "\n", n).0, ReadLine(front + "\n", n).1 + rest)
    ensures ReadLine(front + "\n", n) ==
            if |front| + 1 < n then (front + "\n", "") else (front[..n - 1], front[n - 1..] + "\n")
  {
    SpanIs(front, '\n', rest);
    SpanIs(front, '\n', "");
    var l := front + "\n";
    assert l + "" == l && front + ['\n'] + "" == l && front + ['\n'] + rest == l + rest && "" + rest == rest;
    if |front| + 1 < n {
      assert (l + rest)[..|l|] == l == l[..|l|] && (l + rest)[|l|..] == rest && l[|l|..] == "";
    } else {
      assert (l + rest)[..n - 1] == l[..n - 1] == front[..n - 1];
      assert (l + rest)[n - 1..] == l[n - 1..] + rest && l[n - 1..] == front[n - 1..] + "\n";
    }
  }

  lemma {:induction false} ChunksOfLine(front: string, rest: string, addr: string)
    requires '\n' !in front
    ensures OtherChunks(front + "\n" + rest, addr) == OtherChunks(front + "\n", addr) + OtherChunks(rest, addr)
    decreases |front|
  {
    hide ReadLine, Token;
    var n := COPY_BUFFER;
    ReadLineWithin(front, rest, n);
    var chunk := ReadLine(front + "\n", n).0;
    if |front| + 1 < n {
      assert "" + rest == rest;
      assert OtherChunks(front + "\n", addr) + OtherChunks(rest, addr) == OtherChunks(front + "\n" + rest, addr);
    } else {
      ChunksOfLine(front[n - 1..], rest, addr);
      var kept, tail := if Token(chunk, '\t').0 == Some(addr) then "" else chunk, front[n - 1..] + "\n";
      assert kept + (OtherChunks(tail, addr) + OtherChunks(rest, addr)) ==
             kept + OtherChunks(tail, addr) + OtherChunks(rest, addr);
    }
  }

  // Chunks are only taken away, and something is taken away exactly if a chunk starts with addr.
  lemma {:induction false} ChunksTaken(s: string, addr: string)
    ensures |OtherChunks(s, addr)| <= |s| && (OtherChunks(s, addr) == s <==> !HasChunk(s, addr))
    decreases |s|
  {
    hide ReadLine, Token;
    if s == "" {
    } else {
      ReadLineShorter(s, COPY_BUFFER);
      var (line, rest) := ReadLine(s, COPY_BUFFER);
      ChunksTaken(rest, addr);
      if Token(line, '\t').0 != Some(addr) && OtherChunks(s, addr) == s {
        assert OtherChunks(rest, addr) == (line + OtherChunks(rest, addr))[|line|..];
      }
    }
  }

  // Past its first character, a line for addr does not look like one.
  lemma LaterToken(b: Binding, k: nat)
    requires Proper(b) && 0 < k < |Line(b)|
    ensures Token(Line(b)[k..], '\t').0 != Some(b.addr)
  {
    var s, tail := Line(b)[k..], b.name + "\n";
    TokenIs(tail, '\t', "");
    if k < |b.addr| {
      assert s == b.addr[k..] + ['\t'] + tail;
      TokenIs(b.addr[k..], '\t', tail);
    } else if k == |b.addr| {
      assert s == ['\t'] + tail && s[1..] == tail;
      assert tail[|b.name|] == '\n';
    } else {
      var i := k - |b.addr| - 1;
      assert s == tail[i..];
      assert s[|s| - 1] == '\n';
      TokenIs(tail[i..], '\t', "");
    }
  }

  // What follows the first chunk of a long line for addr stays.
  lemma {:induction false} LaterChunksStay(b: Binding, k: nat)
    requires Proper(b) && 0 < k < |Line(b)|
    ensures OtherChunks(Line(b)[k..], b.addr) != ""
    decreases |Line(b)| - k
  {
    var front := (b.addr + "\t" + b.name)[k..];
    assert Line(b)[k..] == front + "\n" && '\n' !in b.addr + "\t" + b.name;
    assert front + "\n" + "" == front + "\n";
    ReadLineWithin(front, "", COPY_BUFFER);
    hide ReadLine, Token;
    if |front| + 1 < COPY_BUFFER {
      LaterToken(b, k);
    } else {
      assert Line(b)[k + COPY_BUFFER - 1..] == front[COPY_BUFFER - 1..] + "\n";
      LaterChunksStay(b, k + COPY_BUFFER - 1);
    }
  }

  // Of each line, remove_name leaves what it should exactly if the line is removable.
  lemma RemovesLine(b: Binding, addr: string)
    requires Proper(b)
    ensures OtherChunks(Line(b), addr) == (if b.addr == addr then "" else Line(b)) <==> Removable(b, addr)
  {
    ChunksTaken(Line(b), addr);
    if b.addr == addr {
      var front := b.addr + "\t" + b.name;
      assert front + "\n" + "" == front + "\n" == Line(b);
      ReadLineWithin(front, "", COPY_BUFFER);
      LineTokens(b);
      hide ReadLine, Token;
      if |Line(b)| >= COPY_BUFFER {
        assert Line(b)[COPY_BUFFER - 1..] == front[COPY_BUFFER - 1..] + "\n";
        LaterChunksStay(b, COPY_BUFFER - 1);
      }
    }
  }

  lemma {:induction false} RemovesLines(bs: seq<Binding>, addr: string)
    requires AllProper(bs) && AllRemovable(bs, addr)
    ensures OtherChunks(Render(bs), addr) == Render(Without(bs, addr))
  {
    hide OtherChunks, Removable, Proper;
    if bs == [] {
      NoLines(addr);
    } else {
      var b, front := bs[0], bs[0].addr + "\t" + bs[0].name;
      assert '\n' !in front by { LineHasOneEnd(b); }
      RemovesLines(bs[1..], addr);
      ChunksOfLine(front, Render(bs[1..]), addr);
      RemovesLine(b, addr);
      WithoutHead(bs, addr);
      assert Removable(bs[0], addr);
      assert "" + Render(Without(bs[1..], addr)) == Render(Without(bs[1..], addr));
    }
  }

  lemma LineHasOneEnd(b: Binding)
    requires Proper(b)
    ensures '\n' !in b.addr + "\t" + b.name
  {
  }

  // A line that fits the buffer is always handled as a whole.
  lemma ShortIsRemovable(b: Binding, addr: string)
    requires Proper(b) && |Line(b)| < COPY_BUFFER
    ensures Removable(b, addr)
  {
    var front := b.addr + "\t" + b.name;
    assert front + "\n" + "" == front + "\n" == Line(b);
    ReadLineWithin(front, "", COPY_BUFFER);
    LineTokens(b);
  }

  lemma NoLines(addr: string)
    ensures Without([], addr) == [] && Render([]) == "" && OtherChunks("", addr) == ""
  {
  }

  lemma WithoutHead(bs: seq<Binding>, addr: string)
    requires bs != []
    ensures Render(Without(bs, addr)) == if bs[0].addr == addr then Render(Without(bs[1..], addr))
                                         else Line(bs[0]) + Render(Without(bs[1..], addr))
  {
    if bs[0].addr == addr {
      assert Without(bs, addr) == Without(bs[1..], addr);
    } else {
      assert Without(bs, addr)[1..] == Without(bs[1..], addr);
    }
  }

  // copy_file_content, chunk by chunk.
  method CopyContent(from: string) returns (to: string)
    ensures to == from
  {
    to := "";
    var rest := from;
    while rest != ""
      invariant to + rest == from
      decreases |rest|
    {
      var (chunk, rest') := ReadLine(rest, COPY_BUFFER);
      assert rest == chunk + rest';
      to, rest := to + chunk, rest';
    }
  }

  // ----- The map of the file, and the file without an address -----

  // The first line of an address gives its name.
  lemma {:induction false} FirstLineWins(bs: seq<Binding>, i: nat)
    requires i < |bs| && forall j :: 0 <= j < i ==> bs[j].addr != bs[i].addr
    ensures bs[i].addr in MapOf(bs) && MapOf(bs)[bs[i].addr] == bs[i].name
  {
    if i == 0 {
    } else {
      FirstLineWins(bs[1..], i - 1);
    }
  }

  lemma {:induction false} OnlyLinesCount(bs: seq<Binding>, addr: string)
    ensures addr in MapOf(bs) <==> exists i :: 0 <= i < |bs| && bs[i].addr == addr
  {
    if bs == [] {
    } else {
      OnlyLinesCount(bs[1..], addr);
      assert forall i :: 0 < i < |bs| ==> bs[i] == bs[1..][i - 1];
    }
  }

  lemma WithoutOne(b: Binding, addr: string)
    ensures Without([], addr) == [] && Without([b], addr) == if b.addr == addr then [] else [b]
  {
    assert [b][1..] == [];
  }

  lemma WithoutTail(bs: seq<Binding>, addr: string)
    requires bs != []
    ensures Without(bs, addr) == Without([bs[0]], addr) + Without(bs[1..], addr)
  {
    WithoutOne(bs[0], addr);
  }

  // Every other line stays, in order.
  lemma {:induction false} OthersInOrder(bs: seq<Binding>, cs: seq<Binding>, addr: string)
    ensures Without(bs + cs, addr) == Without(bs, addr) + Without(cs, addr)
  {
    hide Without;
    if bs == [] {
      assert bs + cs == cs;
      WithoutOne(Binding("", ""), addr);
    } else {
      OthersInOrder(bs[1..], cs, addr);
      assert (bs + cs)[1..] == bs[1..] + cs && (bs + cs)[0] == bs[0];
      WithoutTail(bs, addr);
      WithoutTail(bs + cs, addr);
    }
  }
}
