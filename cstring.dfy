/** NUL-terminated character buffers and the two libc routines the binding layer
    leans on (`strlen`, `strcat`). A C `char` is modelled as a Dafny `char`. */
module CString {

  const NUL: char := '\0'

  /** The content of a C string: no NUL anywhere. */
  predicate NoNul(s: seq<char>) {
    forall i :: 0 <= i < |s| ==> s[i] != NUL
  }

  /** A buffer that holds a NUL somewhere, so that `strlen` stops inside it. */
  predicate Terminated(s: seq<char>) {
    exists i :: 0 <= i < |s| && s[i] == NUL
  }

  lemma TerminatedTail(s: seq<char>)
    requires Terminated(s) && s[0] != NUL
    ensures Terminated(s[1..])
  {
    var i :| 0 <= i < |s| && s[i] == NUL;
    assert s[1..][i - 1] == NUL;
  }

  /** `strlen`: the index of the first NUL of the buffer. */
  function Strlen(s: seq<char>): (n: nat)
    requires Terminated(s)
    ensures n < |s| && s[n] == NUL
    ensures forall i :: 0 <= i < n ==> s[i] != NUL
  {
    if s[0] == NUL then 0
    else
      TerminatedTail(s);
      1 + Strlen(s[1..])
  }

  /** Any NUL whose prefix holds none is the one `strlen` finds. */
  lemma StrlenAt(s: seq<char>, k: nat)
    requires k < |s| && s[k] == NUL && NoNul(s[..k])
    ensures Terminated(s) && Strlen(s) == k
  {
    forall i | 0 <= i < k
      ensures s[i] != NUL
    {
      assert s[..k][i] == s[i];
    }
  }

  /** What C code sees of a buffer: the characters before the first NUL. */
  function Content(s: seq<char>): (c: seq<char>)
    requires Terminated(s)
    ensures NoNul(c) && c + [NUL] <= s
  {
    s[..Strlen(s)]
  }

  /** The buffer `wit_string_to_c_string` builds: the bytes, then a terminator. */
  function Encode(s: seq<char>): (b: seq<char>)
    ensures |b| == |s| + 1 && b[..|s|] == s && b[|s|] == NUL
  {
    s + [NUL]
  }

  /** Reading an encoded buffer back yields its longest NUL-free prefix: the whole
      input exactly when the input holds no NUL. */
  lemma ContentOfEncode(s: seq<char>)
    ensures Terminated(Encode(s))
    ensures Content(Encode(s)) <= s
    ensures Content(Encode(s)) == s <==> NoNul(s)
  {
    var b := Encode(s);
    assert b[|s|] == NUL;
    var n := Strlen(b);
    assert b[..n] == s[..n];
    if NoNul(s) {
      StrlenAt(b, |s|);
    } else {
      var i :| 0 <= i < |s| && s[i] == NUL;
      assert b[i] == NUL;
      assert n <= i;
    }
  }

  /** The C string a buffer holds: `s[..k]` when the first NUL is at `k`. */
  lemma ContentAt(s: seq<char>, k: nat)
    requires k < |s| && s[k] == NUL && NoNul(s[..k])
    ensures Terminated(s) && Content(s) == s[..k]
  {
    StrlenAt(s, k);
  }

  /** `strlen` over an array, scanning for the terminator. */
  method StrlenOf(a: array<char>) returns (n: nat)
    requires Terminated(a[..])
    ensures n < a.Length && a[n] == NUL
    ensures forall i :: 0 <= i < n ==> a[i] != NUL
    ensures n == Strlen(a[..])
  {
    n := 0;
    while a[n] != NUL
      invariant n <= Strlen(a[..])
      decreases Strlen(a[..]) - n
    {
      n := n + 1;
    }
  }

  /** `strcat(dst, src)`: `src` and a terminator overwrite `dst` from its first NUL on. */
  method Strcat(dst: array<char>, src: seq<char>)
    requires Terminated(dst[..]) && NoNul(src)
    requires Strlen(dst[..]) + |src| < dst.Length
    modifies dst
    ensures var d := Strlen(old(dst[..]));
      && dst[..d] == old(dst[..d])
      && dst[d..d + |src|] == src
      && dst[d + |src|] == NUL
      && forall k :: d + |src| < k < dst.Length ==> dst[k] == old(dst[k])
  {
    var d := StrlenOf(dst);
    var i := 0;
    while i < |src|
      invariant 0 <= i <= |src|
      invariant forall k :: 0 <= k < d ==> dst[k] == old(dst[k])
      invariant forall k :: d <= k < d + i ==> dst[k] == src[k - d]
      invariant forall k :: d + i <= k < dst.Length ==> dst[k] == old(dst[k])
    {
      dst[d + i] := src[i];
      i := i + 1;
    }
    dst[d + |src|] := NUL;
    assert dst[d..d + |src|] == src;
  }

  /** A `const char *` as C code holds it: NULL, a heap buffer, or a string literal
      in static storage. */
  datatype CPtr = Null | Heap(buf: array<char>) | Literal(text: seq<char>)

  /** The pointer's target is a C string `strlen` can read. */
  ghost predicate Readable(p: CPtr)
    reads if p.Heap? then {p.buf} else {}
  {
    match p
    case Null => false
    case Heap(b) => Terminated(b[..])
    case Literal(t) => NoNul(t)
  }

  /** The characters of the C string `p` points to. */
  function Chars(p: CPtr): (s: seq<char>)
    requires Readable(p)
    reads if p.Heap? then {p.buf} else {}
    ensures NoNul(s)
  {
    match p
    case Heap(b) => Content(b[..])
    case Literal(t) => t
  }

  /** The pointer a `char *` variable holds. */
  function PtrTo(a: array?<char>): (p: CPtr)
    ensures p.Null? <==> a == null
  {
    if a == null then Null else Heap(a)
  }
}
