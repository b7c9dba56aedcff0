/** The error channel of src/component.c: a fixed buffer of MAX_ERROR_MESSAGE_LENGTH
    characters and the counter `g_error_len`, filled by the diagnostic sink that the
    engine calls once per message. */
module Diagnostics {
  import opened CString

  const MAX_ERROR_MESSAGE_LENGTH: nat := 1024

  /** The buffered text after the sink receives `line`: the line is stored only when
      it fits together with a separator and the terminator; a separator precedes it
      only when the buffer already holds text. */
  function Append(buf: seq<char>, line: seq<char>): seq<char> {
    if |buf| + |line| + 1 < MAX_ERROR_MESSAGE_LENGTH then
      (if |buf| > 0 then buf + "\n" + line else line)
    else buf
  }

  /** The buffered text after the sink receives each of `lines` in turn. */
  function Feed(buf: seq<char>, lines: seq<seq<char>>): seq<char>
    decreases |lines|
  {
    if lines == [] then buf
    else Append(Feed(buf, lines[..|lines| - 1]), lines[|lines| - 1])
  }

  /** The text captured from `lines` by a freshly reset channel. */
  function Accumulate(lines: seq<seq<char>>): seq<char> {
    Feed([], lines)
  }

  /** The counter never reaches the capacity, whatever the engine reports. */
  lemma {:induction false} FeedBounded(buf: seq<char>, lines: seq<seq<char>>)
    requires |buf| < MAX_ERROR_MESSAGE_LENGTH
    ensures |Feed(buf, lines)| < MAX_ERROR_MESSAGE_LENGTH
    decreases |lines|
  {
    if lines != [] {
      FeedBounded(buf, lines[..|lines| - 1]);
    }
  }

  /** Text already buffered is never disturbed: later lines only extend it. */
  lemma {:induction false} FeedExtends(buf: seq<char>, lines: seq<seq<char>>)
    ensures buf <= Feed(buf, lines)
    decreases |lines|
  {
    if lines != [] {
      FeedExtends(buf, lines[..|lines| - 1]);
    }
  }

  /** Feeding two batches one after the other is feeding their concatenation. */
  lemma {:induction false} FeedConcat(buf: seq<char>, a: seq<seq<char>>, b: seq<seq<char>>)
    ensures Feed(buf, a + b) == Feed(Feed(buf, a), b)
    decreases |b|
  {
    if b == [] {
      assert a + b == a;
    } else {
      assert (a + b)[..|a + b| - 1] == a + b[..|b| - 1];
      FeedConcat(buf, a, b[..|b| - 1]);
    }
  }

  /** A line that a fresh channel would store on its own. */
  predicate Fits(line: seq<char>) {
    line != [] && |line| + 1 < MAX_ERROR_MESSAGE_LENGTH
  }

  /** Something is captured (`g_error_len > 0`) exactly when one of the lines is
      non-empty and short enough to be stored. */
  lemma {:induction false} CapturedIff(lines: seq<seq<char>>)
    ensures Accumulate(lines) != [] <==> exists i :: 0 <= i < |lines| && Fits(lines[i])
    decreases |lines|
  {
    if lines != [] {
      var init := lines[..|lines| - 1];
      var last := lines[|lines| - 1];
      CapturedIff(init);
      FeedExtends(Accumulate(init), [last]);
      assert Feed([], lines) == Append(Accumulate(init), last);
      assert Feed(Accumulate(init), [last]) == Append(Accumulate(init), last);
      if exists i :: 0 <= i < |init| && Fits(init[i]) {
        var i :| 0 <= i < |init| && Fits(init[i]);
        assert lines[i] == init[i];
      }
      if exists i :: 0 <= i < |lines| && Fits(lines[i]) {
        var i :| 0 <= i < |lines| && Fits(lines[i]);
        if i < |init| {
          assert init[i] == lines[i];
        }
      }
    }
  }

  /** The lines separated by single newlines: what the buffer holds when nothing is
      dropped. */
  function Join(lines: seq<seq<char>>): seq<char>
    decreases |lines|
  {
    if lines == [] then []
    else if |lines| == 1 then lines[0]
    else Join(lines[..|lines| - 1]) + "\n" + lines[|lines| - 1]
  }

  /** When every line is non-empty and the joined text fits, the captured text is
      exactly the lines joined by newlines: the first one without a separator. */
  lemma {:induction false} AccumulateIsJoin(lines: seq<seq<char>>)
    requires forall i :: 0 <= i < |lines| ==> lines[i] != []
    requires |Join(lines)| + 1 < MAX_ERROR_MESSAGE_LENGTH
    ensures Accumulate(lines) == Join(lines)
    decreases |lines|
  {
    if |lines| == 1 {
      assert lines[..0] == [];
      assert Feed([], lines) == Append(Feed([], []), lines[0]);
    } else if |lines| > 1 {
      var init := lines[..|lines| - 1];
      assert forall i :: 0 <= i < |init| ==> init[i] == lines[i];
      assert init[..|init| - 1] == lines[..|lines| - 2];
      assert |Join(lines)| == |Join(init)| + 1 + |lines[|lines| - 1]|;
      AccumulateIsJoin(init);
      assert Join(init) != [] by {
        if |init| == 1 { assert Join(init) == init[0]; }
        else { assert |Join(init)| >= 1; }
      }
    }
  }

  /** `g_error_messages` and `g_error_len`, plus the sink and the reset. */
  class ErrorChannel {
    const messages: array<char>
    var len: int

    /** The buffer holds `len` characters and then the terminator, so `len` is
        `strlen(g_error_messages)` and stays below the capacity. */
    ghost predicate Valid()
      reads this, messages
    {
      && messages.Length == MAX_ERROR_MESSAGE_LENGTH
      && 0 <= len < MAX_ERROR_MESSAGE_LENGTH
      && messages[len] == NUL
      && NoNul(messages[..len])
    }

    /** The buffered diagnostics as one string. */
    function Text(): (t: seq<char>)
      reads this, messages
      requires Valid()
      ensures |t| == len < MAX_ERROR_MESSAGE_LENGTH
    {
      messages[..len]
    }

    /** The counter agrees with `strlen` of the buffer, and the C string the buffer
        holds is the buffered text. */
    lemma LenIsStrlen()
      requires Valid()
      ensures Terminated(messages[..]) && Strlen(messages[..]) == len
      ensures Content(messages[..]) == Text()
    {
      assert messages[..][..len] == messages[..len];
      ContentAt(messages[..], len);
    }

    /** The zero-initialised static storage. */
    constructor ()
      ensures Valid() && Text() == [] && fresh(messages)
    {
      messages := new char[MAX_ERROR_MESSAGE_LENGTH](_ => NUL);
      len := 0;
    }

    /** `viz_error_handler`: appends `text` behind a newline when the buffer is not
        empty, drops it when it would not fit, and always asks the engine to go on. */
    method Handler(text: seq<char>) returns (r: int)
      requires Valid() && NoNul(text)
      modifies this`len, messages
      ensures Valid()
      ensures r == 0
      ensures |old(Text())| + |text| + 1 < MAX_ERROR_MESSAGE_LENGTH ==>
        Text() == old(Text()) + (if |old(Text())| > 0 then "\n" else "") + text
      ensures |old(Text())| + |text| + 1 >= MAX_ERROR_MESSAGE_LENGTH ==> Text() == old(Text())
      ensures Text() == Append(old(Text()), text)
    {
      var n := |text|;
      if len + n + 1 < MAX_ERROR_MESSAGE_LENGTH {
        if len > 0 {
          Put("\n");
        }
        Put(text);
      }
      r := 0;
    }

    /** One `strcat` onto the buffer, for a text that fits. */
    method Put(s: seq<char>)
      requires Valid() && NoNul(s) && len + |s| < MAX_ERROR_MESSAGE_LENGTH
      modifies this`len, messages
      ensures Valid() && Text() == old(Text()) + s
    {
      ghost var before := messages[..len];
      LenIsStrlen();
      Strcat(messages, s);
      len := len + |s|;
      assert messages[..len] == before + s;
    }

    /** The buffer half of `viz_reset_errors`: the C string becomes empty. */
    method Clear()
      requires Valid()
      modifies this`len, messages
      ensures Valid() && Text() == []
    {
      messages[0] := NUL;
      len := 0;
    }
  }
}
