/** cfustring_split: cutting a string at separators, and joining it again. */
module Splitting {
  import opened Options
  import opened StringBuffers
  import opened Messages

  // How many characters of sep are matched after reading c. A mismatch starts over without
  // looking at c again; an empty separator matches nothing.
  function Advance(sep: CString, m: nat, c: char): (m': nat)
    ensures m' <= m + 1
  {
    if m < |sep| && sep[m] == c then m + 1 else 0
  }

  function Advanced(seps: seq<CString>, ms: seq<nat>, c: char): seq<nat>
    requires |ms| == |seps|
  {
    seq(|seps|, i requires 0 <= i < |seps| => Advance(seps[i], ms[i], c))
  }

  predicate Done(sep: CString, m: nat) {
    m == |sep| && sep != ""
  }

  // The first separator that is matched, or their number.
  function FirstDone(seps: seq<CString>, ms: seq<nat>): (i: nat)
    requires |ms| == |seps|
    ensures i <= |seps| && forall k :: 0 <= k < i ==> !Done(seps[k], ms[k])
    ensures i < |seps| ==> Done(seps[i], ms[i])
  {
    if seps == [] || Done(seps[0], ms[0]) then 0 else 1 + FirstDone(seps[1..], ms[1..])
  }

  // No separator has more characters matched than were read.
  predicate Counts(seps: seq<CString>, ms: seq<nat>, j: nat) {
    |ms| == |seps| && forall i :: 0 <= i < |ms| ==> ms[i] <= j
  }

  // Reading s from position j: where the first separator to be matched completely starts and ends.
  function Scan(s: CString, seps: seq<CString>, j: nat, ms: seq<nat>): (r: Option<(nat, nat)>)
    requires j <= |s| && Counts(seps, ms, j)
    ensures r.Some? ==> r.value.0 <= r.value.1 <= |s| && j < r.value.1
    decreases |s| - j
  {
    if j == |s| then None
    else
      var ms' := Advanced(seps, ms, s[j]);
      var i := FirstDone(seps, ms');
      if i < |seps| then Some((j + 1 - |seps[i]|, j + 1)) else Scan(s, seps, j + 1, ms')
  }

  function FirstMatch(s: CString, seps: seq<CString>): (r: Option<(nat, nat)>)
    ensures r.Some? ==> r.value.0 <= r.value.1 <= |s| && 0 < r.value.1
  {
    Scan(s, seps, 0, seq(|seps|, _ => 0))
  }

  // The pieces split off s after `used` earlier ones; limit 0 means no limit.
  // An empty piece ends the split.
  function Pieces(s: CString, seps: seq<CString>, limit: nat, used: nat): seq<CString>
    decreases |s|
  {
    if s == "" then []
    else if limit > 0 && used >= limit - 1 then [s]
    else
      match FirstMatch(s, seps)
      case None => [s]
      case Some((from, to)) => if from == 0 then [] else [s[..from]] + Pieces(s[to..], seps, limit, used + 1)
  }

  // The next piece of s, and what remains of s after it and its separator. An empty piece is NULL.
  function NextPiece(s: CString, seps: seq<CString>, last: bool): (Option<CString>, CString) {
    if s == "" then (None, "")
    else if last then (Some(s), "")
    else
      match FirstMatch(s, seps)
      case None => (Some(s), "")
      case Some((from, to)) => (if from == 0 then None else Some(s[..from]), s[to..])
  }

  // One character read by the matchers, until one is done.
  method ReadChar(seps: seq<CString>, ptrs: array<nat>, c: char, ghost ms: seq<nat>) returns (done: nat)
    requires ptrs.Length == |seps| && ptrs[..] == ms
    modifies ptrs
    ensures done == FirstDone(seps, Advanced(seps, ms, c))
    ensures done == |seps| ==> ptrs[..] == Advanced(seps, ms, c)
  {
    ghost var ms' := Advanced(seps, ms, c);
    var i := 0;
    while i < |seps|
      invariant i <= |seps|
      invariant forall k :: 0 <= k < i ==> ptrs[k] == ms'[k] && !Done(seps[k], ms'[k])
      invariant forall k :: i <= k < |seps| ==> ptrs[k] == ms[k]
    {
      if ptrs[i] < |seps[i]| && seps[i][ptrs[i]] == c {
        ptrs[i] := ptrs[i] + 1;
        if ptrs[i] == |seps[i]| {
          FirstDoneAt(seps, ms', i);
          return i;
        }
      } else {
        ptrs[i] := 0;
      }
      i := i + 1;
    }
    FirstDoneAt(seps, ms', i);
    done := i;
  }

  lemma {:induction false} FirstDoneAt(seps: seq<CString>, ms: seq<nat>, i: nat)
    requires |ms| == |seps| && i <= |seps| && (forall k :: 0 <= k < i ==> !Done(seps[k], ms[k]))
    requires i < |seps| ==> Done(seps[i], ms[i])
    ensures FirstDone(seps, ms) == i
  {
  }

  lemma ScanStep(s: CString, seps: seq<CString>, j: nat, ms: seq<nat>)
    requires j < |s| && Counts(seps, ms, j)
    ensures var ms' := Advanced(seps, ms, s[j]);
            var i := FirstDone(seps, ms');
            && Counts(seps, ms', j + 1)
            && (i < |seps| ==> |seps[i]| <= j + 1)
            && Scan(s, seps, j, ms) ==
               if i < |seps| then Some((j + 1 - |seps[i]|, j + 1)) else Scan(s, seps, j + 1, ms')
  {
  }

  lemma ScanStart(s: CString, seps: seq<CString>, ms: seq<nat>)
    requires |ms| == |seps| && forall i :: 0 <= i < |ms| ==> ms[i] == 0
    ensures Counts(seps, ms, 0) && FirstMatch(s, seps) == Scan(s, seps, 0, ms)
    ensures s == "" ==> FirstMatch(s, seps) == None
  {
    assert ms == seq(|seps|, _ => 0);
  }

  lemma ScanEnd(s: CString, seps: seq<CString>, ms: seq<nat>)
    requires Counts(seps, ms, |s|)
    ensures Scan(s, seps, |s|, ms) == None
  {
  }

  // _check_sep, from position `start` of the buffer. The matchers' positions are kept in `ptrs`.
  method CheckSep(s: CString, start: nat, seps: seq<CString>, ptrs: array<nat>, last: bool)
    returns (r: Option<CString>, next: nat)
    requires start <= |s| && ptrs.Length == |seps|
    modifies ptrs
    ensures start <= next <= |s| && (start < |s| ==> start < next)
    ensures (r, s[next..]) == NextPiece(s[start..], seps, last)
    ensures r.Some? ==> start < |s|
  {
    hide Scan, FirstMatch, Counts, Advanced, FirstDone;
    ghost var rest: CString := s[start..];
    forall i | 0 <= i < |seps| {
      ptrs[i] := 0;
    }
    if start == |s| {
      return None, start;
    }
    if last {
      assert s[|s|..] == "";
      return Some(s[start..]), |s|;
    }
    var end := start;
    ghost var ms := ptrs[..];
    ScanStart(rest, seps, ms);
    while end < |s|
      invariant start <= end <= |s| && |ms| == |seps| && Counts(seps, ms, end - start) && ptrs[..] == ms
      invariant FirstMatch(rest, seps) == Scan(rest, seps, end - start, ms)
    {
      assert s[end] == rest[end - start];
      ScanStep(rest, seps, end - start, ms);
      var i := ReadChar(seps, ptrs, s[end], ms);
      if i < |seps| {
        var size := end - start + 1 - |seps[i]|;
        assert s[end + 1..] == rest[end + 1 - start..] && s[start..start + size] == rest[..size];
        return if size == 0 then None else Some(s[start..start + size]), end + 1;
      }
      ms := Advanced(seps, ms, s[end]);
      end := end + 1;
    }
    assert rest == s[start..end] && s[end..] == "";
    ScanEnd(rest, seps, ms);
    r, next := Some(s[start..end]), end;
  }

  function Somes(xs: seq<CString>): seq<Option<CString>> {
    seq(|xs|, i requires 0 <= i < |xs| => Some(xs[i]))
  }

  lemma SomesSnoc(xs: seq<CString>, x: CString)
    ensures Somes(xs + [x]) == Somes(xs) + [Some(x)] && Somes([]) == []
  {
  }

  // One turn of the split loop on the pieces.
  lemma PiecesStep(s: CString, seps: seq<CString>, limit: nat, used: nat)
    ensures var (p, rest) := NextPiece(s, seps, limit > 0 && used >= limit - 1);
            Pieces(s, seps, limit, used) == if p.None? then [] else [p.value] + Pieces(rest, seps, limit, used + 1)
  {
    hide FirstMatch;
  }

  // Store x at position n of an array that doubles when full.
  method Push<T>(ret: array<Option<T>>, n: nat, x: T) returns (ret': array<Option<T>>)
    requires n <= ret.Length && 0 < ret.Length
    modifies ret
    ensures ret' == ret || fresh(ret')
    ensures n < ret'.Length && ret'[..n + 1] == old(ret[..n]) + [Some(x)]
  {
    ret' := ret;
    if n == ret.Length {
      ret' := new Option<T>[2 * ret.Length](_ => None);
      forall i | 0 <= i < n {
        ret'[i] := ret[i];
      }
    }
    ret'[n] := Some(x);
  }

  // __cfustring_split_to_raw: the pieces, collected in an array. A NULL array is [].
  method SplitToRaw(buf: StringBuffer, seps: seq<CString>, limit: nat) returns (strings: seq<Option<CString>>)
    requires buf.Valid()
    ensures strings == if limit == 1 then [buf.buf.text] else Somes(Pieces(buf.buf.Contents(), seps, limit, 0))
  {
    var copy := buf.GetBufferCopy();
    if limit == 1 {
      return [copy];
    }
    if copy.None? {
      return [];
    }
    strings := SplitText(copy.value, seps, limit);
  }

  method SplitText(s: CString, seps: seq<CString>, limit: nat) returns (strings: seq<Option<CString>>)
    requires limit != 1
    ensures strings == Somes(Pieces(s, seps, limit, 0))
  {
    hide NextPiece, Pieces, Somes;
    SomesSnoc([], "");
    var ret := new Option<CString>[2](_ => None);
    var ptrs := new nat[|seps|](_ => 0);
    ghost var done: seq<CString> := [];
    var used, last := 0, false;
    ghost var from := 0;
    assert s[0..] == s;
    var piece, end := CheckSep(s, 0, seps, ptrs, last);
    while piece.Some?
      invariant from <= end <= |s| && used == |done| <= ret.Length && 0 < ret.Length && fresh(ret)
      invariant from < |s| ==> from < end
      invariant piece.Some? ==> from < |s|
      invariant last <==> limit > 0 && used >= limit - 1
      invariant (piece, s[end..]) == NextPiece(s[from..], seps, last)
      invariant ret[..used] == Somes(done)
      invariant Pieces(s, seps, limit, 0) == done + Pieces(s[from..], seps, limit, used)
      decreases |s| - from
    {
      PiecesStep(s[from..], seps, limit, used);
      SomesSnoc(done, piece.value);
      assert forall rest :: done + ([piece.value] + rest) == done + [piece.value] + rest;
      ret := Push(ret, used, piece.value);
      used, done, from := used + 1, done + [piece.value], end;
      if limit > 0 && used == limit - 1 {
        last := true;
      }
      piece, end := CheckSep(s, end, seps, ptrs, last);
    }
    PiecesStep(s[from..], seps, limit, used);
    assert done + [] == done;
    strings := ret[..used];
  }

  // ----- When the matcher finds what it looks for -----

  type Separator = s: CString | s != "" witness ","

  // r is the first occurrence of sep in s, or None if there is none.
  ghost predicate IsFirst(s: CString, sep: Separator, r: Option<(nat, nat)>) {
    match r
    case None => forall i: nat :: !OccursAt(s, sep, i)
    case Some((from, to)) =>
      OccursAt(s, sep, from) && to == from + |sep| && forall i: nat :: i < from ==> !OccursAt(s, sep, i)
  }

  ghost predicate Uniform(sep: CString) {
    forall i :: 0 <= i < |sep| ==> sep[i] == sep[0]
  }

  // One step of the matcher of a single separator.
  lemma ScanOne(s: CString, sep: Separator, j: nat, m: nat)
    requires m <= j < |s|
    ensures var m' := Advance(sep, m, s[j]);
            Scan(s, [sep], j, [m]) == if m' == |sep| then Some((j + 1 - |sep|, j + 1)) else Scan(s, [sep], j + 1, [m'])
  {
    assert Advanced([sep], [m], s[j]) == [Advance(sep, m, s[j])];
    FirstDoneAt([sep], [Advance(sep, m, s[j])], if Advance(sep, m, s[j]) == |sep| then 0 else 1);
    hide Advance;
  }

  // Too little is left to complete a match.
  lemma {:induction false} ScanShort(s: CString, sep: Separator, j: nat, m: nat)
    requires m <= j <= |s| && m + (|s| - j) < |sep|
    ensures Scan(s, [sep], j, [m]) == None
    decreases |s| - j
  {
    if j == |s| {
    } else {
      ScanOne(s, sep, j, m);
      ScanShort(s, sep, j + 1, Advance(sep, m, s[j]));
    }
  }

  // The next characters continue the match from m to n.
  lemma {:induction false} ScanMatches(s: CString, sep: Separator, j: nat, m: nat, n: nat)
    requires m <= j && m <= n < |sep| && j + (n - m) <= |s|
    requires forall i :: m <= i < n ==> s[j + (i - m)] == sep[i]
    ensures Scan(s, [sep], j, [m]) == Scan(s, [sep], j + (n - m), [n])
    decreases n - m
  {
    if m == n {
    } else {
      ScanOne(s, sep, j, m);
      ScanMatches(s, sep, j + 1, m + 1, n);
    }
  }

  // Characters other than the first of sep leave the matcher at its start.
  lemma {:induction false} ScanSkips(s: CString, sep: Separator, j: nat, k: nat)
    requires j <= k <= |s| && forall i :: j <= i < k ==> s[i] != sep[0]
    ensures Scan(s, [sep], j, [0]) == Scan(s, [sep], k, [0])
    decreases k - j
  {
    if j == k {
    } else {
      ScanOne(s, sep, j, 0);
      ScanSkips(s, sep, j + 1, k);
    }
  }

  // No occurrence ends here if this character is another one, or its run is too short.
  lemma RunTooShort(s: CString, sep: Separator, j: nat, m: nat)
    requires Uniform(sep) && m <= j < |s| && |sep| <= j + 1
    requires s[j] != sep[0] || (m + 1 < |sep| && m < j && s[j - m - 1] != sep[0])
    ensures !OccursAt(s, sep, j + 1 - |sep|)
  {
    if OccursAt(s, sep, j + 1 - |sep|) {
      OccursOver(s, sep, j + 1 - |sep|);
    }
  }

  lemma NoneIsFirst(s: CString, sep: Separator)
    requires forall i: nat :: i + |sep| <= |s| ==> !OccursAt(s, sep, i)
    ensures IsFirst(s, sep, None)
  {
  }

  lemma RunIsFirst(s: CString, sep: Separator, j: nat)
    requires Uniform(sep) && |sep| <= j + 1 <= |s|
    requires forall i :: j + 1 - |sep| <= i <= j ==> s[i] == sep[0]
    requires forall i: nat :: i + |sep| <= j ==> !OccursAt(s, sep, i)
    ensures IsFirst(s, sep, Some((j + 1 - |sep|, j + 1)))
  {
    assert s[j + 1 - |sep|..j + 1 - |sep| + |sep|] == sep;
  }

  // A separator of one repeated character: the matcher counts the run of it that ends here.
  lemma {:induction false} ScanUniform(s: CString, sep: Separator, j: nat, m: nat)
    requires Uniform(sep) && m <= j <= |s| && m < |sep|
    requires forall i :: j - m <= i < j ==> s[i] == sep[0]
    requires m < j ==> s[j - m - 1] != sep[0]
    requires forall i: nat :: i + |sep| <= j ==> !OccursAt(s, sep, i)
    ensures IsFirst(s, sep, Scan(s, [sep], j, [m]))
    decreases |s| - j
  {
    hide OccursAt, IsFirst, Scan;
    if j == |s| {
      NoneIsFirst(s, sep);
      ScanEnd(s, [sep], [m]);
    } else {
      ScanOne(s, sep, j, m);
      if s[j] == sep[0] && m + 1 == |sep| {
        RunIsFirst(s, sep, j);
      } else {
        forall i: nat | i + |sep| <= j + 1
          ensures !OccursAt(s, sep, i)
        {
          if i == j + 1 - |sep| { RunTooShort(s, sep, j, m); }
        }
        ScanUniform(s, sep, j + 1, Advance(sep, m, s[j]));
      }
    }
  }

  // A separator whose k-th character is the first to differ is overlooked after one more of the first character.
  lemma MatcherOverlooks(sep: Separator, k: nat)
    requires 0 < k < |sep| && sep[k] != sep[0] && forall i :: 0 <= i < k ==> sep[i] == sep[0]
    ensures var s: CString := [sep[0]] + sep; OccursAt(s, sep, 1) && FirstMatch(s, [sep]) == None
  {
    var s: CString := [sep[0]] + sep;
    assert s[1..1 + |sep|] == sep;
    ScanStart(s, [sep], [0]);
    ScanMatches(s, sep, 0, 0, k);
    ScanOne(s, sep, k, k);
    ScanShort(s, sep, k + 1, 0);
  }

  // The matcher does not back up: it is right on every text exactly if the separator's characters are all the same.
  lemma MatcherExact(sep: Separator)
    ensures (forall s: CString :: IsFirst(s, sep, FirstMatch(s, [sep]))) <==> Uniform(sep)
  {
    if Uniform(sep) {
      forall s: CString
        ensures IsFirst(s, sep, FirstMatch(s, [sep]))
      {
        ScanStart(s, [sep], [0]);
        ScanUniform(s, sep, 0, 0);
      }
    } else {
      var k := FirstOther(sep);
      MatcherOverlooks(sep, k);
      var s: CString := [sep[0]] + sep;
      assert !IsFirst(s, sep, FirstMatch(s, [sep]));
    }
  }

  lemma FirstOther(sep: Separator) returns (k: nat)
    requires !Uniform(sep)
    ensures 0 < k < |sep| && sep[k] != sep[0] && forall i :: 0 <= i < k ==> sep[i] == sep[0]
  {
    k := 0;
    while sep[k] == sep[0]
      invariant k < |sep| && forall i :: 0 <= i < k ==> sep[i] == sep[0]
      decreases |sep| - k
    {
      assert k + 1 == |sep| ==> Uniform(sep);
      k := k + 1;
    }
  }

  // ----- What splitting means -----

  // The fields of s between separators, empty ones included.
  function Fields(s: CString, seps: seq<CString>): seq<CString>
    decreases |s|
  {
    match FirstMatch(s, seps)
    case None => [s]
    case Some((from, to)) => [s[..from]] + Fields(s[to..], seps)
  }

  function BeforeEmpty(fields: seq<CString>): seq<CString> {
    if fields == [] || fields[0] == "" then [] else [fields[0]] + BeforeEmpty(fields[1..])
  }

  // Without a limit, split returns the fields before the first empty one.
  lemma {:induction false} SplitIsFieldsBeforeEmpty(s: CString, seps: seq<CString>, used: nat)
    ensures Pieces(s, seps, 0, used) == BeforeEmpty(Fields(s, seps))
    decreases |s|
  {
    match FirstMatch(s, seps) {
      case None =>
      case Some((from, to)) =>
        SplitIsFieldsBeforeEmpty(s[to..], seps, used + 1);
        var rest := Fields(s[to..], seps);
        assert ([s[..from]] + rest)[1..] == rest;
    }
  }

  function Join(xs: seq<CString>, sep: Separator): CString {
    if xs == [] then "" else if |xs| == 1 then xs[0] else xs[0] + sep + Join(xs[1..], sep)
  }

  // The first k strings do not contain the separator's first character.
  ghost predicate Free(xs: seq<CString>, sep: Separator, k: nat) {
    forall i :: 0 <= i < |xs| && i < k ==> sep[0] !in xs[i]
  }

  ghost predicate NoneEmpty(xs: seq<CString>, k: nat) {
    forall i :: 0 <= i < |xs| && i < k ==> xs[i] != ""
  }

  // In a join the separator is found after the first string.
  lemma FirstMatchInJoin(x: CString, sep: Separator, rest: CString)
    requires sep[0] !in x
    ensures FirstMatch(x, [sep]) == None
    ensures FirstMatch(x + sep + rest, [sep]) == Some((|x|, |x| + |sep|))
    ensures (x + sep + rest)[..|x|] == x && (x + sep + rest)[|x| + |sep|..] == rest
  {
    var s: CString, n := x + sep + rest, |sep| - 1;
    ScanStart(x, [sep], [0]);
    ScanStart(s, [sep], [0]);
    ScanSkips(x, sep, 0, |x|);
    ScanEnd(x, [sep], [0]);
    hide Scan, FirstMatch;
    assert forall i :: 0 <= i < |x| ==> s[i] == x[i];
    assert forall i :: 0 <= i < |sep| ==> s[|x| + i] == sep[i];
    ScanSkips(s, sep, 0, |x|);
    ScanMatches(s, sep, |x|, 0, n);
    ScanOne(s, sep, |x| + n, n);
  }

  lemma {:induction false} FieldsOfJoin(xs: seq<CString>, sep: Separator)
    requires xs != [] && Free(xs, sep, |xs|)
    ensures Fields(Join(xs, sep), [sep]) == xs
    decreases |xs|
  {
    hide FirstMatch;
    if |xs| == 1 {
      FirstMatchInJoin(xs[0], sep, "");
    } else {
      FirstMatchInJoin(xs[0], sep, Join(xs[1..], sep));
      FieldsOfJoin(xs[1..], sep);
    }
  }

  lemma {:induction false} BeforeEmptyAll(xs: seq<CString>)
    ensures BeforeEmpty(xs) == xs <==> NoneEmpty(xs, |xs|)
    ensures |BeforeEmpty(xs)| <= |xs|
  {
    if xs == [] || xs[0] == "" {
    } else {
      BeforeEmptyAll(xs[1..]);
      assert xs == [xs[0]] + xs[1..];
      assert NoneEmpty(xs, |xs|) <==> NoneEmpty(xs[1..], |xs[1..]|) by { NoneEmptyCons(xs, |xs|); }
      assert BeforeEmpty(xs)[1..] == BeforeEmpty(xs[1..]);
    }
  }

  lemma NoneEmptyCons(xs: seq<CString>, k: nat)
    requires xs != [] && 0 < k
    ensures NoneEmpty(xs, k) <==> xs[0] != "" && NoneEmpty(xs[1..], k - 1)
  {
    assert forall i :: 0 < i < |xs| ==> xs[i] == xs[1..][i - 1];
  }

  // Splitting undoes joining exactly when no string is empty.
  lemma SplitUndoesJoin(xs: seq<CString>, sep: Separator)
    requires Free(xs, sep, |xs|)
    ensures Pieces(Join(xs, sep), [sep], 0, 0) == xs <==> NoneEmpty(xs, |xs|)
  {
    if xs == [] {
    } else {
      SplitIsFieldsBeforeEmpty(Join(xs, sep), [sep], 0);
      FieldsOfJoin(xs, sep);
      BeforeEmptyAll(xs);
    }
  }

  // The first k strings, then the join of all that remain.
  function Limited(xs: seq<CString>, sep: Separator, k: nat): seq<CString> {
    if |xs| <= k then xs else xs[..k] + [Join(xs[k..], sep)]
  }

  // None of these pieces is empty.
  ghost predicate Splittable(xs: seq<CString>, sep: Separator, k: nat) {
    NoneEmpty(xs, k) && (k < |xs| ==> Join(xs[k..], sep) != "")
  }

  lemma LimitedCons(xs: seq<CString>, sep: Separator, k: nat)
    requires 1 < |xs| && 0 < k
    ensures Limited(xs, sep, k) == [xs[0]] + if k == 1 then [Join(xs[1..], sep)] else Limited(xs[1..], sep, k - 1)
    ensures Splittable(xs, sep, k) <==>
            xs[0] != "" && if k == 1 then Join(xs[1..], sep) != "" else Splittable(xs[1..], sep, k - 1)
  {
    hide Join;
    NoneEmptyCons(xs, k);
    if k < |xs| {
      assert xs[1..][k - 1..] == xs[k..] && xs[..k] == [xs[0]] + xs[1..][..k - 1];
    }
  }

  // The first piece of a join, and how the others follow.
  lemma FirstPieceOfJoin(x: CString, sep: Separator, rest: CString, limit: nat, used: nat)
    requires sep[0] !in x && used < limit - 1
    ensures Pieces(x, [sep], limit, used) == if x == "" then [] else [x]
    ensures Pieces(x + sep + rest, [sep], limit, used) ==
            if x == "" then [] else [x] + Pieces(rest, [sep], limit, used + 1)
  {
    hide FirstMatch;
    FirstMatchInJoin(x, sep, rest);
  }

  lemma JoinIs(xs: seq<CString>, sep: Separator)
    requires 1 < |xs|
    ensures Join(xs, sep) == xs[0] + sep + Join(xs[1..], sep)
  {
  }

  lemma SplitFew(xs: seq<CString>, sep: Separator, limit: nat, used: nat)
    requires |xs| <= 1 && used < limit - 1 && Free(xs, sep, limit - 1 - used)
    ensures Pieces(Join(xs, sep), [sep], limit, used) == Limited(xs, sep, limit - 1 - used) <==>
            Splittable(xs, sep, limit - 1 - used)
  {
    hide FirstMatch;
    if |xs| == 1 { FirstPieceOfJoin(xs[0], sep, "", limit, used); }
  }

  // With a limit of two or more, the pieces are the first strings and the join of all that remain,
  // exactly if none of these is empty.
  lemma {:induction false} SplitWithLimit(xs: seq<CString>, sep: Separator, limit: nat, used: nat)
    requires used < limit - 1 && Free(xs, sep, limit - 1 - used)
    ensures Pieces(Join(xs, sep), [sep], limit, used) == Limited(xs, sep, limit - 1 - used) <==>
            Splittable(xs, sep, limit - 1 - used)
    decreases |xs|
  {
    hide Limited, Splittable, Pieces, Join;
    var k := limit - 1 - used;
    if |xs| <= 1 {
      SplitFew(xs, sep, limit, used);
    } else {
      assert Join(xs, sep) == xs[0] + sep + Join(xs[1..], sep) by { JoinIs(xs, sep); }
      FirstPieceOfJoin(xs[0], sep, Join(xs[1..], sep), limit, used);
      LimitedCons(xs, sep, k);
      LimitedNotEmpty(xs, sep, k);
      if k == 1 {
        LastPiece(xs[0], Join(xs[1..], sep), sep, limit, used + 1);
      } else {
        SplitWithLimit(xs[1..], sep, limit, used + 1);
        SameTail(xs[0], Pieces(Join(xs[1..], sep), [sep], limit, used + 1), Limited(xs[1..], sep, k - 1));
      }
    }
  }

  lemma LastPiece(x: CString, s: CString, sep: Separator, limit: nat, used: nat)
    requires limit > 0 && used == limit - 1
    ensures [x] + Pieces(s, [sep], limit, used) == [x] + [s] <==> s != ""
  {
    SameTail(x, Pieces(s, [sep], limit, used), [s]);
  }

  lemma SameTail(x: CString, a: seq<CString>, b: seq<CString>)
    ensures [x] + a == [x] + b <==> a == b
  {
    assert ([x] + a)[1..] == a && ([x] + b)[1..] == b;
  }

  lemma LimitedNotEmpty(xs: seq<CString>, sep: Separator, k: nat)
    requires xs != [] && 0 < k
    ensures Limited(xs, sep, k) != []
  {
  }

  // ----- Several separators -----

  // One step of the matcher of any single separator; an empty one is never matched.
  lemma ScanAny(s: CString, sep: CString, j: nat, m: nat)
    requires m <= j < |s|
    ensures var m' := Advance(sep, m, s[j]);
            && (Done(sep, m') ==> |sep| <= j + 1)
            && Scan(s, [sep], j, [m]) ==
               if Done(sep, m') then Some((j + 1 - |sep|, j + 1)) else Scan(s, [sep], j + 1, [m'])
  {
    var m' := Advance(sep, m, s[j]);
    assert Advanced([sep], [m], s[j]) == [m'];
    FirstDoneAt([sep], [m'], if Done(sep, m') then 0 else 1);
    hide Advance;
  }

  // Where a match ends, if there is one; otherwise after the text.
  function EndOf(s: CString, r: Option<(nat, nat)>): nat {
    if r.Some? then r.value.1 else |s| + 1
  }

  lemma ScanEnds(s: CString, seps: seq<CString>, j: nat, ms: seq<nat>)
    requires j <= |s| && Counts(seps, ms, j)
    ensures j < EndOf(s, Scan(s, seps, j, ms)) <= |s| + 1
    ensures Scan(s, seps, j, ms).None? <==> EndOf(s, Scan(s, seps, j, ms)) == |s| + 1
  {
  }

  // The matchers of several separators run side by side: the earliest end counts, at the first of those that end there.
  lemma {:induction false} ScanOf(s: CString, seps: seq<CString>, j: nat, ms: seq<nat>)
    requires j <= |s| && Counts(seps, ms, j)
    ensures var r := Scan(s, seps, j, ms);
            && (forall k :: 0 <= k < |seps| ==> EndOf(s, r) <= EndOf(s, Scan(s, [seps[k]], j, [ms[k]])))
            && (r.Some? ==> exists i :: 0 <= i < |seps| && Scan(s, [seps[i]], j, [ms[i]]) == r &&
                              forall k :: 0 <= k < i ==> EndOf(s, r) < EndOf(s, Scan(s, [seps[k]], j, [ms[k]])))
    decreases |s| - j
  {
    hide Scan, FirstDone, Advance, Done;
    if j == |s| {
      ScanNone(s, seps, ms);
    } else {
      ScanStep(s, seps, j, ms);
      var ms' := Advanced(seps, ms, s[j]);
      var i := FirstDone(seps, ms');
      forall k | 0 <= k < |seps|
        ensures Scan(s, [seps[k]], j, [ms[k]]) ==
                if Done(seps[k], ms'[k]) then Some((j + 1 - |seps[k]|, j + 1)) else Scan(s, [seps[k]], j + 1, [ms'[k]])
        ensures j + 1 < EndOf(s, Scan(s, [seps[k]], j + 1, [ms'[k]])) <= |s| + 1
      {
        ScanAny(s, seps[k], j, ms[k]);
        ScanEnds(s, [seps[k]], j + 1, [ms'[k]]);
      }
      if i == |seps| { ScanOf(s, seps, j + 1, ms'); }
    }
  }

  lemma ScanNone(s: CString, seps: seq<CString>, ms: seq<nat>)
    requires Counts(seps, ms, |s|)
    ensures Scan(s, seps, |s|, ms) == None
    ensures forall k :: 0 <= k < |seps| ==> Scan(s, [seps[k]], |s|, [ms[k]]) == None
  {
  }

  lemma FirstMatchOf(s: CString, seps: seq<CString>)
    ensures var r := FirstMatch(s, seps);
            && (r == None <==> forall i :: 0 <= i < |seps| ==> FirstMatch(s, [seps[i]]) == None)
            && (forall k :: 0 <= k < |seps| ==> EndOf(s, r) <= EndOf(s, FirstMatch(s, [seps[k]])))
            && (r.Some? ==> exists i :: 0 <= i < |seps| && FirstMatch(s, [seps[i]]) == r &&
                              forall k :: 0 <= k < i ==> EndOf(s, r) < EndOf(s, FirstMatch(s, [seps[k]])))
  {
    hide Scan, FirstMatch, Advanced, FirstDone;
    var ms: seq<nat> := seq(|seps|, _ => 0);
    ScanStart(s, seps, ms);
    ScanOf(s, seps, 0, ms);
    forall k | 0 <= k < |seps|
      ensures FirstMatch(s, [seps[k]]) == Scan(s, [seps[k]], 0, [ms[k]])
      ensures EndOf(s, FirstMatch(s, [seps[k]])) <= |s| + 1
    {
      ScanStart(s, [seps[k]], [0]);
      ScanEnds(s, [seps[k]], 0, [0]);
    }
  }

  // An empty separator is found nowhere.
  lemma EmptySeparator(s: CString)
    ensures FirstMatch(s, [""]) == None
  {
    ScanStart(s, [""], [0]);
    ScanEmpty(s, 0);
  }

  lemma {:induction false} ScanEmpty(s: CString, j: nat)
    requires j <= |s|
    ensures Scan(s, [""], j, [0]) == None
    decreases |s| - j
  {
    if j == |s| {
    } else {
      ScanAny(s, "", j, 0);
      ScanEmpty(s, j + 1);
    }
  }

  // Strings joined by separators that may differ.
  function JoinWith(xs: seq<CString>, ds: seq<CString>): CString
    requires |xs| == |ds| + 1
    decreases |xs|
  {
    if |xs| == 1 then xs[0] else xs[0] + ds[0] + JoinWith(xs[1..], ds[1..])
  }

  // Every separator is one character, and s contains none of them.
  ghost predicate Letters(seps: seq<CString>) {
    forall k :: 0 <= k < |seps| ==> |seps[k]| == 1
  }

  ghost predicate Without(s: CString, seps: seq<CString>) {
    forall k :: 0 <= k < |seps| && seps[k] != "" ==> seps[k][0] !in s
  }

  lemma LetterIsFirst(s: CString, sep: Separator)
    requires |sep| == 1
    ensures match FirstMatch(s, [sep])
            case None => sep[0] !in s
            case Some((from, to)) => to == from + 1 && s[from] == sep[0] && sep[0] !in s[..from]
  {
    MatcherExact(sep);
    var r := FirstMatch(s, [sep]);
    assert IsFirst(s, sep, r);
    forall i | 0 <= i < |s| && s[i] == sep[0]
      ensures OccursAt(s, sep, i)
    {
      assert s[i..i + 1] == sep;
    }
    if r.Some? { assert s[r.value.0..r.value.0 + 1] == sep; }
  }

  lemma FirstMatchInMixedJoin(x: CString, seps: seq<CString>, d: CString, rest: CString)
    requires Letters(seps) && Without(x, seps) && d in seps
    ensures FirstMatch(x, seps) == None
    ensures FirstMatch(x + d + rest, seps) == Some((|x|, |x| + 1))
    ensures (x + d + rest)[..|x|] == x && (x + d + rest)[|x| + 1..] == rest
  {
    hide FirstMatch;
    var s: CString := x + d + rest;
    FirstMatchOf(x, seps);
    FirstMatchOf(s, seps);
    forall k | 0 <= k < |seps|
      ensures FirstMatch(x, [seps[k]]) == None
      ensures var r := FirstMatch(s, [seps[k]]); r.Some? ==> r.value.0 + 1 == r.value.1 >= |x| + 1
      ensures seps[k] == d ==> FirstMatch(s, [seps[k]]) == Some((|x|, |x| + 1))
    {
      LetterIsFirst(x, seps[k]);
      LetterIsFirst(s, seps[k]);
      assert forall i :: 0 <= i < |x| ==> s[i] == x[i];
      assert s[|x|] == d[0];
    }
    var k :| 0 <= k < |seps| && seps[k] == d;
  }

  lemma {:induction false} FieldsOfMixedJoin(xs: seq<CString>, ds: seq<CString>, seps: seq<CString>)
    requires |xs| == |ds| + 1 && Letters(seps)
    requires forall i :: 0 <= i < |xs| ==> Without(xs[i], seps)
    requires forall i :: 0 <= i < |ds| ==> ds[i] in seps
    ensures Fields(JoinWith(xs, ds), seps) == xs
    decreases |xs|
  {
    hide FirstMatch, Without;
    if |xs| == 1 {
      if seps == [] {
        FirstMatchOf(xs[0], seps);
      } else {
        FirstMatchInMixedJoin(xs[0], seps, seps[0], "");
      }
    } else {
      FirstMatchInMixedJoin(xs[0], seps, ds[0], JoinWith(xs[1..], ds[1..]));
      FieldsOfMixedJoin(xs[1..], ds[1..], seps);
    }
  }

  // Strings joined with any of several one-character separators come back exactly when none is empty.
  lemma SplitUndoesMixedJoin(xs: seq<CString>, ds: seq<CString>, seps: seq<CString>)
    requires |xs| == |ds| + 1 && Letters(seps)
    requires forall i :: 0 <= i < |xs| ==> Without(xs[i], seps)
    requires forall i :: 0 <= i < |ds| ==> ds[i] in seps
    ensures Pieces(JoinWith(xs, ds), seps, 0, 0) == xs <==> NoneEmpty(xs, |xs|)
  {
    hide Without, Letters;
    SplitIsFieldsBeforeEmpty(JoinWith(xs, ds), seps, 0);
    FieldsOfMixedJoin(xs, ds, seps);
    BeforeEmptyAll(xs);
  }
}
