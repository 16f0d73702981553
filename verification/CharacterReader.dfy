/** The character stream that the snapshot reader stands on (src/characterreader.c). */
module CharacterReader {
  import opened Wrappers

  const MAX_UNGET_CHARS := 20
  const CHARACTER_BUFFER_SIZE := 1024

  // (char) EOF
  const EOF_CHAR := 255 as char

  // The first n characters of s, as many as there are, and then EOF_CHAR.
  function Padded(s: seq<char>, n: nat): seq<char> {
    if n <= |s| then s[..n] else s + seq(n - |s|, _ => EOF_CHAR)
  }

  function Dropped(s: seq<char>, n: nat): seq<char> {
    if n <= |s| then s[n..] else []
  }

  lemma PaddedNone(s: seq<char>)
    ensures Padded(s, 0) == [] && Dropped(s, 0) == s
  {
  }

  // One character more.
  lemma PaddedMore(s: seq<char>, n: nat)
    ensures Padded(s, n + 1) == Padded(s, n) + [if n < |s| then s[n] else EOF_CHAR]
    ensures Dropped(s, n) == [] <==> n >= |s|
    ensures if n < |s| then Dropped(s, n)[0] == s[n] && Dropped(s, n)[1..] == Dropped(s, n + 1) else Dropped(s, n + 1) == []
  {
  }

  /** A buffer of characters and the file behind it: `unread` is what the file has still to give. */
  class CharacterBuffer {
    const chars: array<char>
    var nextUnread: nat
    var end: nat
    var unread: seq<char>
    var isAtEOF: bool

    ghost predicate Valid()
      reads this
    {
      && chars.Length == CHARACTER_BUFFER_SIZE && nextUnread <= end <= chars.Length
      && (isAtEOF ==> nextUnread == end && unread == [])
    }

    /** The characters that are still to come. */
    ghost function Remaining(): seq<char>
      requires Valid()
      reads this, chars
    {
      chars[nextUnread..end] + unread
    }

    // initCharacterBufferFromFile
    constructor (file: seq<char>)
      ensures Valid() && Remaining() == file && !isAtEOF && fresh(chars)
    {
      chars := new char[CHARACTER_BUFFER_SIZE](_ => ' ');
      nextUnread, end, unread, isAtEOF := 0, 0, file, false;
    }

    // readFile, at position `at` of the buffer
    method ReadFile(at: nat, maxSize: nat) returns (n: nat)
      requires at + maxSize <= chars.Length
      modifies `unread, chars
      ensures n == (if |old(unread)| < maxSize then |old(unread)| else maxSize) && unread == old(unread)[n..]
      ensures chars[at..at + n] == old(unread)[..n]
      ensures forall i :: 0 <= i < at ==> chars[i] == old(chars[i])
    {
      n := if |unread| < maxSize then |unread| else maxSize;
      forall i | at <= i < at + n {
        chars[i] := unread[i - at];
      }
      unread := unread[n..];
    }

    /** refillBuffer, as getChar calls it: when everything has been read, so that nothing is left to be moved to
        the front of the buffer. */
    method RefillBuffer() returns (more: bool)
      requires Valid() && !isAtEOF && nextUnread == end
      modifies `nextUnread, `end, `unread, chars
      ensures Valid() && Remaining() == old(Remaining()) && (more <==> nextUnread < end) && (!more ==> Remaining() == [])
    {
      var cp := MAX_UNGET_CHARS;
      var n := ReadFile(cp, CHARACTER_BUFFER_SIZE - cp);
      if n > 0 {
        end, nextUnread := cp + n, MAX_UNGET_CHARS;
      }
      more := nextUnread != end;
    }

    /** getChar; None is EOF. */
    method GetChar() returns (ch: Option<char>)
      requires Valid()
      modifies `nextUnread, `end, `unread, `isAtEOF, chars
      ensures Valid() && (isAtEOF <==> old(isAtEOF) || old(Remaining()) == [])
      ensures old(Remaining()) == [] ==> ch == None && Remaining() == []
      ensures old(Remaining()) != [] ==> ch == Some(old(Remaining())[0]) && Remaining() == old(Remaining())[1..]
    {
      if nextUnread >= end {
        var more := false;
        if !isAtEOF {
          more := RefillBuffer();
        }
        if !more {
          isAtEOF := true;
          return None;
        }
      }
      ch := Some(chars[nextUnread]);
      nextUnread := nextUnread + 1;
    }

    /** getString: the next `length` characters; behind the end of the file, the character that EOF becomes. */
    method GetString(length: nat) returns (s: seq<char>)
      requires Valid()
      modifies `nextUnread, `end, `unread, `isAtEOF, chars
      ensures Valid() && s == Padded(old(Remaining()), length) && Remaining() == Dropped(old(Remaining()), length)
      ensures isAtEOF <==> old(isAtEOF) || length > |old(Remaining())|
    {
      hide Padded, Dropped, Remaining;
      ghost var was := Remaining();
      s := [];
      PaddedNone(was);
      for i := 0 to length
        invariant Valid() && s == Padded(old(Remaining()), i) && Remaining() == Dropped(old(Remaining()), i)
        invariant isAtEOF <==> old(isAtEOF) || i > |old(Remaining())|
      {
        PaddedMore(was, i);
        var ch := GetChar();
        s := s + [if ch.None? then EOF_CHAR else ch.value];
      }
    }

    /** skipCharacters: over the next `count` characters, whether they are in the buffer or not. */
    method SkipCharacters(count: nat)
      requires Valid() && !isAtEOF
      modifies `nextUnread, `end, `unread, chars
      ensures Valid() && Remaining() == Dropped(old(Remaining()), count)
    {
      ghost var was := Remaining();
      if nextUnread + count < end {
        nextUnread := nextUnread + count;
        return;
      }
      var rest := count - (end - nextUnread);
      unread := if rest <= |unread| then unread[rest..] else [];
      var left := unread;
      var n := ReadFile(MAX_UNGET_CHARS, CHARACTER_BUFFER_SIZE - MAX_UNGET_CHARS);
      end, nextUnread := MAX_UNGET_CHARS + n, MAX_UNGET_CHARS;
      assert Remaining() == left;
    }
  }
}
