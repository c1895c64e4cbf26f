/** The JavaScript string operations the screens rely on, as functions on `string`:
    `toLowerCase` (ASCII letters only), `trim`, `includes`, `split(',')`, `join`, and the
    "split on commas, trim, drop empty entries" idiom used for tags and image lists. */
module Text {
  import Seqs

  /** The characters `String.prototype.trim` removes: the ECMAScript WhiteSpace and
      LineTerminator code points. */
  predicate IsSpace(c: char) {
    c == ' ' || c == '\t' || c == '\n' || c == '\r' || c == '\U{000B}' || c == '\U{000C}'
    || c == '\U{00A0}' || c == '\U{1680}' || ('\U{2000}' <= c <= '\U{200A}')
    || c == '\U{2028}' || c == '\U{2029}' || c == '\U{202F}' || c == '\U{205F}'
    || c == '\U{3000}' || c == '\U{FEFF}'
  }

  predicate AllSpace(s: string) {
    forall i :: 0 <= i < |s| ==> IsSpace(s[i])
  }

  /** Neither starts nor ends with whitespace (what `trim` returns). */
  predicate IsTrimmed(s: string) {
    s == [] || (!IsSpace(s[0]) && !IsSpace(s[|s| - 1]))
  }

  /** No ASCII upper-case letter (what `toLowerCase` returns). */
  predicate IsLower(s: string) {
    forall i :: 0 <= i < |s| ==> !('A' <= s[i] <= 'Z')
  }

  /** Lower-casing of one character, on the ASCII range. */
  function LowerChar(c: char): (r: char)
    ensures !('A' <= r <= 'Z')
    ensures 'A' <= c <= 'Z' ==> r as int == c as int + 32
    ensures !('A' <= c <= 'Z') ==> r == c
  {
    if 'A' <= c <= 'Z' then (c as int + 32) as char else c
  }

  /** `toLowerCase`, on the ASCII range. */
  function ToLower(s: string): (r: string)
    ensures |r| == |s|
  {
    if s == [] then [] else [LowerChar(s[0])] + ToLower(s[1..])
  }

  /** `toLowerCase` works character by character. */
  lemma {:induction false} ToLowerAt(s: string, i: int)
    requires 0 <= i < |s|
    ensures ToLower(s)[i] == LowerChar(s[i])
  {
    if i > 0 {
      ToLowerAt(s[1..], i - 1);
    }
  }

  lemma ToLowerIsLower(s: string)
    ensures IsLower(ToLower(s))
  {
    forall i | 0 <= i < |s| ensures !('A' <= ToLower(s)[i] <= 'Z') {
      ToLowerAt(s, i);
    }
  }

  lemma ToLowerOfLower(s: string)
    requires IsLower(s)
    ensures ToLower(s) == s
  {
    forall i | 0 <= i < |s| ensures ToLower(s)[i] == s[i] {
      ToLowerAt(s, i);
    }
  }

  /** `trimStart`: drops the leading whitespace. */
  function TrimStart(s: string): (r: string)
    ensures r == [] || !IsSpace(r[0])
  {
    if s != [] && IsSpace(s[0]) then TrimStart(s[1..]) else s
  }

  /** `trimStart` removes a prefix, and that prefix is whitespace. */
  lemma {:induction false} TrimStartDrops(s: string)
    ensures |TrimStart(s)| <= |s| && TrimStart(s) == s[|s| - |TrimStart(s)|..]
    ensures AllSpace(s[..|s| - |TrimStart(s)|])
  {
    if s != [] && IsSpace(s[0]) {
      var tail := s[1..];
      TrimStartDrops(tail);
      var r := TrimStart(tail);
      var k := |s| - |r|;
      assert tail[k - 1..] == s[k..];
      var gap, tailGap := s[..k], tail[..k - 1];
      forall i | 0 <= i < k ensures IsSpace(gap[i]) {
        if i > 0 {
          assert gap[i] == tailGap[i - 1];
        }
      }
    }
  }

  /** `trimEnd`: drops the trailing whitespace. */
  function TrimEnd(s: string): (r: string)
    ensures r == [] || !IsSpace(r[|r| - 1])
  {
    if s != [] && IsSpace(s[|s| - 1]) then TrimEnd(s[..|s| - 1]) else s
  }

  /** `trimEnd` removes a suffix, and that suffix is whitespace. */
  lemma {:induction false} TrimEndDrops(s: string)
    ensures |TrimEnd(s)| <= |s| && TrimEnd(s) == s[..|TrimEnd(s)|]
    ensures AllSpace(s[|TrimEnd(s)|..])
  {
    if s != [] && IsSpace(s[|s| - 1]) {
      var t := s[..|s| - 1];
      TrimEndDrops(t);
      var r := TrimEnd(t);
      assert t[..|r|] == s[..|r|];
      var gap, headGap := s[|r|..], t[|r|..];
      forall i | 0 <= i < |gap| ensures IsSpace(gap[i]) {
        if i < |headGap| {
          assert gap[i] == headGap[i];
        }
      }
    }
  }

  /** `trim`: the infix of `s` left after removing whitespace at both ends. */
  function Trim(s: string): (r: string)
    ensures IsTrimmed(r)
  {
    TrimEndDrops(TrimStart(s));
    TrimEnd(TrimStart(s))
  }

  /** What `trim` keeps: an infix of `s` with only whitespace before and after it. */
  lemma TrimIsInfix(s: string) returns (a: nat)
    ensures a + |Trim(s)| <= |s| && Trim(s) == s[a..a + |Trim(s)|]
    ensures AllSpace(s[..a]) && AllSpace(s[a + |Trim(s)|..])
  {
    var t := TrimStart(s);
    var r := TrimEnd(t);
    TrimStartDrops(s);
    TrimEndDrops(t);
    a := |s| - |t|;
    assert r == s[a..a + |r|];
    assert s[a + |r|..] == t[|r|..];
  }

  lemma {:induction false} TrimStartOf(pre: string, rest: string)
    requires AllSpace(pre) && (rest == [] || !IsSpace(rest[0]))
    ensures TrimStart(pre + rest) == rest
  {
    if pre == [] {
      assert pre + rest == rest;
    } else {
      assert (pre + rest)[0] == pre[0];
      assert (pre + rest)[1..] == pre[1..] + rest;
      TrimStartOf(pre[1..], rest);
    }
  }

  lemma {:induction false} TrimEndOf(rest: string, post: string)
    requires AllSpace(post) && (rest == [] || !IsSpace(rest[|rest| - 1]))
    ensures TrimEnd(rest + post) == rest
  {
    var s := rest + post;
    if post == [] {
      assert s == rest;
    } else {
      var shorter := post[..|post| - 1];
      assert s[|s| - 1] == post[|post| - 1];
      assert s[..|s| - 1] == rest + shorter;
      TrimEndOf(rest, shorter);
    }
  }

  /** `trim` is characterised by its result: whatever trimmed text is surrounded by whitespace
      trims to that text. */
  lemma TrimUnique(pre: string, t: string, post: string)
    requires AllSpace(pre) && IsTrimmed(t) && AllSpace(post)
    ensures Trim(pre + t + post) == t
  {
    if t == [] {
      assert AllSpace(pre + post);
      assert pre + t + post == pre + post;
      TrimStartOf(pre + post, []);
      assert pre + post + [] == pre + post;
    } else {
      assert pre + t + post == pre + (t + post);
      TrimStartOf(pre, t + post);
      TrimEndOf(t, post);
    }
  }

  lemma TrimOfTrimmed(s: string)
    requires IsTrimmed(s)
    ensures Trim(s) == s
  {
    TrimUnique([], s, []);
    assert [] + s + [] == s;
  }

  /** `s.trim()` is falsy exactly when `s` is all whitespace. */
  lemma TrimEmptyIff(s: string)
    ensures Trim(s) == [] <==> AllSpace(s)
  {
    var a := TrimIsInfix(s);
    if AllSpace(s) {
      TrimUnique(s, [], []);
      assert s + [] + [] == s;
    }
  }

  /** `s.includes(q)`: `q` occurs in `s` as a contiguous piece. */
  predicate Contains(s: string, q: string) {
    exists i :: 0 <= i <= |s| - |q| && OccursAt(s, q, i)
  }

  predicate OccursAt(s: string, q: string, i: int) {
    0 <= i <= |s| - |q| && s[i..i + |q|] == q
  }

  /** `parts.join(sep)`. */
  function Join(parts: seq<string>, sep: string): string
  {
    if parts == [] then [] else if |parts| == 1 then parts[0] else parts[0] + sep + Join(parts[1..], sep)
  }

  /** `s.split(sep)` for a one-character separator: the pieces between separators, at least
      one, none containing the separator. */
  function Split(s: string, sep: char): (r: seq<string>)
    ensures |r| >= 1
  {
    if s == [] then [[]]
    else
      var rest := Split(s[1..], sep);
      if s[0] == sep then [[]] + rest
      else [[s[0]] + rest[0]] + rest[1..]
  }

  /** `join` undoes `split`. */
  lemma {:induction false} JoinSplit(s: string, sep: char)
    ensures Join(Split(s, sep), [sep]) == s
  {
    if s != [] {
      JoinSplit(s[1..], sep);
      var rest := Split(s[1..], sep);
      if s[0] != sep {
        var r := [[s[0]] + rest[0]] + rest[1..];
        assert r[1..] == rest[1..];
        if |rest| > 1 {
          assert Join(rest, [sep]) == rest[0] + [sep] + Join(rest[1..], [sep]);
        }
      }
      assert [s[0]] + s[1..] == s;
    }
  }

  /** No piece of `split` holds the separator. */
  lemma {:induction false} SplitPiecesFree(s: string, sep: char)
    ensures forall k :: 0 <= k < |Split(s, sep)| ==> sep !in Split(s, sep)[k]
  {
    if s != [] {
      SplitPiecesFree(s[1..], sep);
      var rest := Split(s[1..], sep);
      if s[0] != sep {
        assert sep !in [s[0]] + rest[0];
      }
    }
  }

  /** One step of `split`: a leading separator ends an empty first piece. */
  lemma SplitConsSep(t: string, sep: char)
    ensures Split([sep] + t, sep) == [[]] + Split(t, sep)
  {
    assert ([sep] + t)[1..] == t;
  }

  /** One step of `split`: any other leading character joins the first piece. */
  lemma SplitConsOther(c: char, t: string, sep: char)
    requires c != sep
    ensures Split([c] + t, sep) == [[c] + Split(t, sep)[0]] + Split(t, sep)[1..]
  {
    assert ([c] + t)[0] == c && ([c] + t)[1..] == t;
  }

  /** Splitting at a separator that was placed between two texts splits each text apart. */
  lemma {:induction false} SplitConcat(a: string, sep: char, b: string)
    ensures Split(a + [sep] + b, sep) == Split(a, sep) + Split(b, sep)
  {
    if a == [] {
      assert a + [sep] + b == [sep] + b;
      SplitConsSep(b, sep);
    } else {
      var c, tail := a[0], a[1..];
      var x := tail + [sep] + b;
      assert a == [c] + tail;
      assert a + [sep] + b == [c] + x;
      SplitConcat(tail, sep, b);
      if c == sep {
        SplitConcatSep(tail, sep, b);
      } else {
        SplitConcatOther(c, tail, sep, b);
      }
    }
  }

  lemma SplitConcatSep(tail: string, sep: char, b: string)
    requires Split(tail + [sep] + b, sep) == Split(tail, sep) + Split(b, sep)
    ensures Split([sep] + (tail + [sep] + b), sep) == Split([sep] + tail, sep) + Split(b, sep)
  {
    SplitConsSep(tail + [sep] + b, sep);
    SplitConsSep(tail, sep);
    PrependPiece([], Split(tail, sep), Split(b, sep));
  }

  lemma PrependPiece(piece: string, head: seq<string>, rest: seq<string>)
    ensures [piece] + (head + rest) == [piece] + head + rest
  {
  }

  lemma SplitConcatOther(c: char, tail: string, sep: char, b: string)
    requires c != sep
    requires Split(tail + [sep] + b, sep) == Split(tail, sep) + Split(b, sep)
    ensures Split([c] + (tail + [sep] + b), sep) == Split([c] + tail, sep) + Split(b, sep)
  {
    SplitConsOther(c, tail + [sep] + b, sep);
    SplitConsOther(c, tail, sep);
    ExtendFirstPiece([c], Split(tail, sep), Split(b, sep));
  }

  /** Prefixing the first piece of a list of pieces commutes with appending more pieces. */
  lemma ExtendFirstPiece(pre: string, head: seq<string>, rest: seq<string>)
    requires |head| >= 1
    ensures [pre + (head + rest)[0]] + (head + rest)[1..] == [pre + head[0]] + head[1..] + rest
  {
    assert (head + rest)[0] == head[0] && (head + rest)[1..] == head[1..] + rest;
  }

  lemma {:induction false} SplitNoSeparator(s: string, sep: char)
    requires sep !in s
    ensures Split(s, sep) == [s]
  {
    if s != [] {
      SplitNoSeparator(s[1..], sep);
      assert [s[0]] + s[1..] == s;
    }
  }

  /** `split` undoes `join`. */
  lemma {:induction false} SplitJoin(parts: seq<string>, sep: char)
    requires |parts| >= 1
    requires forall k :: 0 <= k < |parts| ==> sep !in parts[k]
    ensures Split(Join(parts, [sep]), sep) == parts
  {
    if |parts| == 1 {
      SplitNoSeparator(parts[0], sep);
    } else {
      SplitJoin(parts[1..], sep);
      SplitConcat(parts[0], sep, Join(parts[1..], [sep]));
      SplitNoSeparator(parts[0], sep);
      assert [parts[0]] + parts[1..] == parts;
    }
  }

  predicate NonEmpty(s: string) { s != [] }

  /** `.map((t) => t.trim()).filter(Boolean)`: the pieces trimmed, with the empty ones dropped. */
  function Entries(pieces: seq<string>): (r: seq<string>)
    ensures forall k :: 0 <= k < |r| ==> r[k] != [] && IsTrimmed(r[k])
    ensures forall k :: 0 <= k < |r| ==> exists j :: 0 <= j < |pieces| && r[k] == Trim(pieces[j])
  {
    var trimmed := Seqs.Map(pieces, Trim);
    Seqs.Filter(trimmed, NonEmpty)
  }

  /** What `ParseList` can return as one entry: non-empty, trimmed, free of commas. */
  predicate IsEntry(t: string) {
    t != [] && IsTrimmed(t) && ',' !in t
  }

  /** `s.split(',').map((t) => t.trim()).filter(Boolean)`: the comma-separated entries of `s`,
      trimmed, with the empty ones dropped. */
  function ParseList(s: string): (r: seq<string>)
    ensures forall k :: 0 <= k < |r| ==> IsEntry(r[k])
  {
    var pieces := Split(s, ',');
    SplitPiecesFree(s, ',');
    var r := Entries(pieces);
    forall k | 0 <= k < |r| ensures ',' !in r[k] {
      var j :| 0 <= j < |pieces| && r[k] == Trim(pieces[j]);
      TrimSubset(pieces[j], ',');
    }
    r
  }

  lemma TrimSubset(s: string, c: char)
    requires c !in s
    ensures c !in Trim(s)
  {
    var a := TrimIsInfix(s);
  }

  lemma EntriesConcat(p: seq<string>, q: seq<string>)
    ensures Entries(p + q) == Entries(p) + Entries(q)
  {
    Seqs.MapConcat(p, q, Trim);
    Seqs.FilterConcat(Seqs.Map(p, Trim), Seqs.Map(q, Trim), NonEmpty);
  }

  /** A comma between two texts separates their entries. */
  lemma ParseListConcat(a: string, b: string)
    ensures ParseList(a + [','] + b) == ParseList(a) + ParseList(b)
  {
    SplitConcat(a, ',', b);
    EntriesConcat(Split(a, ','), Split(b, ','));
  }

  /** Leading whitespace does not change the entries. */
  lemma ParseListSpace(c: char, s: string)
    requires IsSpace(c) && c != ','
    ensures ParseList([c] + s) == ParseList(s)
  {
    var x := [c] + s;
    assert x[1..] == s;
    var rest := Split(s, ',');
    assert Split(x, ',') == [[c] + rest[0]] + rest[1..];
    assert ([c] + rest[0])[1..] == rest[0];
    assert Trim([c] + rest[0]) == Trim(rest[0]);
    assert Seqs.Map(Split(x, ','), Trim) == Seqs.Map(rest, Trim);
  }


  /** One entry that needs no trimming reads back as itself. */
  lemma ParseListSingle(t: string)
    requires IsEntry(t)
    ensures ParseList(t) == [t]
  {
    SplitNoSeparator(t, ',');
    TrimOfTrimmed(t);
    assert Seqs.Map([t], Trim) == [t];
  }

  lemma ParseListEmpty()
    ensures ParseList([]) == []
  {
    assert Split([], ',') == [[]];
    assert Seqs.Map([[]], Trim) == [[]];
  }

  lemma JoinCommaSpace(items: seq<string>)
    requires |items| >= 2
    ensures Join(items, ", ") == items[0] + [','] + ([' '] + Join(items[1..], ", "))
  {
  }

  /** The first entry of a `", "`-joined list parses apart from the rest. */
  lemma ParseListJoinStep(items: seq<string>)
    requires |items| >= 2
    ensures ParseList(Join(items, ", ")) == ParseList(items[0]) + ParseList(Join(items[1..], ", "))
  {
    var tail := Join(items[1..], ", ");
    JoinCommaSpace(items);
    ParseListConcat(items[0], [' '] + tail);
    ParseListSpace(' ', tail);
  }

  /** `parse(list.join(', ')) == list` for entries `ParseList` can return: the edit form shows a
      post's tags and images joined by `", "`, and submitting them unchanged yields the same lists. */
  lemma {:induction false} ParseListJoin(items: seq<string>)
    requires forall k :: 0 <= k < |items| ==> IsEntry(items[k])
    ensures ParseList(Join(items, ", ")) == items
  {
    if items == [] {
      ParseListEmpty();
    } else if |items| == 1 {
      ParseListSingle(items[0]);
    } else {
      var head, rest := items[0], items[1..];
      assert items == [head] + rest;
      assert forall k :: 0 <= k < |rest| ==> rest[k] == items[k + 1];
      ParseListJoin(rest);
      ParseListJoinStep(items);
      ParseListSingle(head);
    }
  }
}
