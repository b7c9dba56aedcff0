/** The two string helpers of the binding layer: boundary strings are
    length-prefixed and may hold any character, engine strings are NUL-terminated. */
module Marshal {
  import opened CString
  import opened Engine

  /** What the engine sees of a boundary string once it has been converted: the
      characters before the first NUL. */
  function CView(s: seq<char>): (v: seq<char>)
    ensures Terminated(Encode(s))
  {
    ContentOfEncode(s);
    Content(Encode(s))
  }

  /** The view is a NUL-free prefix of the string, and the whole string exactly
      when it holds no NUL. */
  lemma CViewIsPrefix(s: seq<char>)
    ensures CView(s) <= s && NoNul(CView(s))
    ensures CView(s) == s <==> NoNul(s)
  {
    ContentOfEncode(s);
  }

  /** The view stops at the first NUL of `s`. */
  lemma CViewStopsAtNul(s: seq<char>, k: nat)
    requires k < |s| && s[k] == NUL && NoNul(s[..k])
    ensures CView(s) == s[..k]
  {
    var b := Encode(s);
    assert b[..k] == s[..k];
    ContentAt(b, k);
  }

  /** `wit_string_to_c_string`: a fresh `malloc`'d buffer of `|s| + 1` characters
      holding `s` and a terminator, which the caller must free; NULL when the
      allocation fails. */
  method WitToCString(n: Native, s: seq<char>, allocOk: bool) returns (c: array?<char>)
    modifies n`mallocd
    ensures c == null <==> !allocOk
    ensures c == null ==> n.mallocd == old(n.mallocd)
    ensures c != null ==>
      && fresh(c) && c.Length == |s| + 1 && c[..] == Encode(s) && c !in old(n.mallocd)
      && c !in n.strrefs && c !in n.renderBuffers && n.mallocd == old(n.mallocd) + {c}
      && n.Live(Heap(c)) && Readable(Heap(c)) && Chars(Heap(c)) == CView(s)
  {
    c := n.Malloc(|s| + 1, allocOk);
    if c == null {
      return;
    }
    var i := 0;
    while i < |s|
      invariant 0 <= i <= |s|
      invariant c[..i] == s[..i]
      modifies c
    {
      c[i] := s[i];
      assert c[..i + 1] == c[..i] + [s[i]];
      assert s[..i + 1] == s[..i] + [s[i]];
      i := i + 1;
    }
    c[|s|] := NUL;
    assert c[..] == c[..|s|] + [NUL];
    assert c[..|s|] == s;
  }

  /** `c_string_to_wit_string`: the empty string for NULL, otherwise a copy of the
      `strlen(c)` characters before the terminator; the empty string when the
      boundary buffer cannot be allocated. */
  method CStringToWit(c: CPtr, allocOk: bool) returns (w: seq<char>)
    requires c.Null? || Readable(c)
    ensures c.Null? ==> w == []
    ensures !c.Null? && !allocOk ==> w == []
    ensures !c.Null? && allocOk ==> w == Chars(c)
  {
    if c.Null? {
      return [];
    }
    var len: nat;
    match c {
      case Heap(b) =>
        len := StrlenOf(b);
      case Literal(t) =>
        len := |t|;
    }
    if !allocOk {
      return [];
    }
    w := [];
    var i := 0;
    while i < len
      invariant 0 <= i <= len
      invariant w == Chars(c)[..i]
      invariant len == |Chars(c)|
    {
      match c {
        case Heap(b) =>
          w := w + [b[i]];
        case Literal(t) =>
          w := w + [t[i]];
      }
      i := i + 1;
    }
  }

  /** A converted string converts back to the original exactly when the original
      holds no NUL; otherwise it comes back cut at the first NUL. */
  lemma RoundTrip(s: seq<char>, c: array<char>)
    requires c[..] == Encode(s)
    ensures Readable(Heap(c)) && Chars(Heap(c)) == CView(s)
    ensures Chars(Heap(c)) == s <==> NoNul(s)
  {
    CViewIsPrefix(s);
  }
}
