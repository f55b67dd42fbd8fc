// The string operations of Go's strings package that the modelled code relies on.

module Text {
  datatype Option<+T> = None | Some(value: T)

  datatype Result<+T, +E> = Ok(value: T) | Err(error: E)

  // unicode.IsSpace.
  predicate IsSpace(c: char) {
    || '\t' <= c <= '\r' || c == ' ' || c == 0x85 as char || c == 0xA0 as char || c == 0x1680 as char
    || 0x2000 as char <= c <= 0x200A as char || c == 0x2028 as char || c == 0x2029 as char
    || c == 0x202F as char || c == 0x205F as char || c == 0x3000 as char
  }

  function TrimLeft(s: string): (r: string)
    ensures |r| <= |s|
  {
    if s != "" && IsSpace(s[0]) then TrimLeft(s[1..]) else s
  }

  function TrimRight(s: string): (r: string)
    ensures |r| <= |s|
  {
    if s != "" && IsSpace(s[|s| - 1]) then TrimRight(s[..|s| - 1]) else s
  }

  // strings.TrimSpace.
  function Trim(s: string): (r: string)
    ensures |r| <= |s|
  {
    TrimRight(TrimLeft(s))
  }

  lemma {:induction false} TrimLeftIs(s: string)
    ensures var r := TrimLeft(s);
            && r == s[|s| - |r|..]
            && (r != "" ==> !IsSpace(r[0]))
            && forall i | 0 <= i < |s| - |r| :: IsSpace(s[i])
  {
    if s != "" && IsSpace(s[0]) {
      TrimLeftIs(s[1..]);
    }
  }

  lemma {:induction false} TrimRightIs(s: string)
    ensures var r := TrimRight(s);
            && r <= s
            && (r != "" ==> !IsSpace(r[|r| - 1]))
            && forall i | |r| <= i < |s| :: IsSpace(s[i])
  {
    if s != "" && IsSpace(s[|s| - 1]) {
      TrimRightIs(s[..|s| - 1]);
    }
  }

  // What is left has no white space at its edges.
  lemma TrimTrims(s: string)
    ensures Trimmed(Trim(s))
  {
    var left := TrimLeft(s);
    TrimLeftIs(s);
    TrimRightIs(left);
    var r := TrimRight(left);
    assert r != "" ==> r[0] == left[0];
  }

  predicate Trimmed(s: string) {
    s == "" || (!IsSpace(s[0]) && !IsSpace(s[|s| - 1]))
  }

  // Trim changes exactly the strings with white space at an edge.
  lemma TrimFixes(s: string)
    ensures Trim(s) == s <==> Trimmed(s)
  {
    TrimTrims(s);
  }

  lemma TrimIdempotent(s: string)
    ensures Trim(Trim(s)) == Trim(s)
  {
    TrimTrims(s);
    TrimFixes(Trim(s));
  }

  // White space around a trimmed string is all that Trim takes away.
  lemma {:induction false} TrimPadded(pre: string, s: string, post: string)
    requires Trimmed(s) && s != ""
    requires forall c | c in pre :: IsSpace(c)
    requires forall c | c in post :: IsSpace(c)
    ensures Trim(pre + s + post) == s
  {
    TrimLeftPadded(pre, s + post);
    assert pre + s + post == pre + (s + post);
    TrimRightPadded(s, post);
  }

  lemma {:induction false} TrimLeftPadded(pre: string, s: string)
    requires s != "" && !IsSpace(s[0])
    requires forall c | c in pre :: IsSpace(c)
    ensures TrimLeft(pre + s) == s
  {
    if pre == "" {
      assert pre + s == s;
    } else {
      assert (pre + s)[1..] == pre[1..] + s;
      TrimLeftPadded(pre[1..], s);
    }
  }

  lemma {:induction false} TrimRightPadded(s: string, post: string)
    requires s != "" && !IsSpace(s[|s| - 1])
    requires forall c | c in post :: IsSpace(c)
    ensures TrimRight(s + post) == s
  {
    if post == "" {
      assert s + post == s;
    } else {
      assert (s + post)[..|s + post| - 1] == s + post[..|post| - 1];
      TrimRightPadded(s, post[..|post| - 1]);
    }
  }

  predicate HasPrefix(s: string, prefix: string) {
    prefix <= s
  }

  predicate OccursAt<T(==)>(s: seq<T>, sep: seq<T>, i: nat) {
    i + |sep| <= |s| && s[i..i + |sep|] == sep
  }

  // strings.Index and bytes.Index: the first position of sep in s from position from on, or |s| + 1 if there is none.
  function Find<T(==)>(s: seq<T>, sep: seq<T>, from: nat): (at: nat)
    requires from <= |s|
    ensures at <= |s| ==> from <= at && OccursAt(s, sep, at)
    ensures at <= |s| || at == |s| + 1
    decreases |s| - from
  {
    if from + |sep| > |s| then |s| + 1
    else if OccursAt(s, sep, from) then from
    else Find(s, sep, from + 1)
  }

  lemma {:induction false} FindsFirst<T>(s: seq<T>, sep: seq<T>, from: nat)
    requires from <= |s|
    ensures forall i | from <= i < Find(s, sep, from) :: !OccursAt(s, sep, i)
    decreases |s| - from
  {
    if from + |sep| <= |s| && !OccursAt(s, sep, from) {
      FindsFirst(s, sep, from + 1);
    }
  }

  datatype Pieces = Uncut | Cut(before: string, after: string)

  // strings.Cut.
  function CutAt(s: string, sep: string): (r: Pieces)
    ensures r.Cut? ==> s == r.before + sep + r.after
  {
    var at := Find(s, sep, 0);
    if at > |s| then Uncut else Cut(s[..at], s[at + |sep|..])
  }

  // A cut separates where the separator can first occur: when nothing of the separator's
  // first character occurs before it.
  lemma CutRecovers(before: string, sep: string, after: string)
    requires sep != "" && sep[0] !in before
    ensures CutAt(before + sep + after, sep) == Cut(before, after)
  {
    var s := before + sep + after;
    assert OccursAt(s, sep, |before|);
    forall i: nat | i < |before| ensures !OccursAt(s, sep, i) {
      assert s[i] == before[i] && before[i] in before;
    }
    FindsFirst(s, sep, 0);
    assert Find(s, sep, 0) == |before|;
    assert s[|before| + |sep|..] == after;
  }
}

module StringOrder {
  // Go's < on strings.
  predicate TextLess(a: string, b: string) {
    b != "" && (a == "" || a[0] < b[0] || (a[0] == b[0] && TextLess(a[1..], b[1..])))
  }

  // It is a strict total order.
  lemma {:induction false} TextOrder(a: string, b: string, c: string)
    ensures a == b || TextLess(a, b) || TextLess(b, a)
    ensures !(TextLess(a, b) && TextLess(b, a)) && !TextLess(a, a)
    ensures TextLess(a, b) && TextLess(b, c) ==> TextLess(a, c)
  {
    if a != "" {
      TextOrder(a[1..], if b == "" then "" else b[1..], if c == "" then "" else c[1..]);
      if b != "" {
        assert a == [a[0]] + a[1..] && b == [b[0]] + b[1..];
      }
    }
  }

  // One string is less than another exactly when it is a proper prefix of it, or has the
  // lesser character where they first differ.
  ghost predicate DiffersAt(a: string, b: string, k: nat) {
    k < |a| && k < |b| && a[..k] == b[..k] && a[k] != b[k]
  }

  lemma {:induction false} TextLessAt(a: string, b: string, k: nat)
    requires DiffersAt(a, b, k)
    ensures TextLess(a, b) <==> a[k] < b[k]
  {
    if k > 0 {
      assert a[0] == a[..k][0] == b[..k][0] == b[0];
      assert a[1..][..k - 1] == a[..k][1..] && b[1..][..k - 1] == b[..k][1..];
      TextLessAt(a[1..], b[1..], k - 1);
    }
  }

  lemma {:induction false} PrefixIsLess(a: string, b: string)
    requires a <= b
    ensures TextLess(a, b) <==> a != b
    ensures !TextLess(b, a)
  {
    if a != "" {
      assert a[0] == b[0] && a[1..] <= b[1..];
      PrefixIsLess(a[1..], b[1..]);
      assert a == [a[0]] + a[1..] && b == [b[0]] + b[1..];
    }
  }
}
