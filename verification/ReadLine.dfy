/** The line reader: a CharBuffer that is filled, flipped, compacted and doubled over a Reader. */
module ReadLine {
  import opened Prelude
  import opened LineSplit

  /** The parts of java.nio.CharBuffer that the line reader uses. */
  class CharBuffer {
    const hb: array<char>
    var position: nat
    var limit: nat

    ghost predicate Valid()
      reads this
    {
      position <= limit <= hb.Length
    }

    function Capacity(): nat {
      hb.Length
    }

    constructor Allocate(capacity: nat)
      ensures Valid() && position == 0 && limit == Capacity() == capacity && fresh(hb)
    {
      hb := new char[capacity];
      position, limit := 0, capacity;
    }

    method Clear()
      modifies this
      ensures Valid() && position == 0 && limit == Capacity()
    {
      position, limit := 0, hb.Length;
    }

    method Flip()
      requires Valid()
      modifies this
      ensures Valid() && position == 0 && limit == old(position)
    {
      position, limit := 0, position;
    }

    /** The unread characters move to the front, and the rest of the buffer becomes free space. */
    method Compact()
      requires Valid()
      modifies this, hb
      ensures Valid() && position == old(limit - position) && limit == Capacity()
      ensures hb[..position] == old(hb[position..limit])
    {
      var n, start := limit - position, position;
      ghost var was := hb[..];
      var i := 0;
      while i < n
        modifies hb
        invariant 0 <= i <= n
        invariant forall k :: 0 <= k < i ==> hb[k] == was[start + k]
        invariant forall k :: i <= k < hb.Length ==> hb[k] == was[k]
      {
        hb[i] := hb[start + i];
        i := i + 1;
      }
      forall k | 0 <= k < n
        ensures hb[..n][k] == was[start..start + n][k]
      {
        assert hb[..n][k] == hb[k] == was[start + k];
      }
      position, limit := n, hb.Length;
    }

    method Put(text: string)
      requires Valid() && |text| <= limit - position
      modifies this`position, hb
      ensures Valid() && position == old(position) + |text|
      ensures hb[..position] == old(hb[..position]) + text
    {
      var i := 0;
      while i < |text|
        modifies hb
        invariant 0 <= i <= |text|
        invariant hb[..position + i] == old(hb[..position]) + text[..i]
      {
        hb[position + i] := text[i];
        i := i + 1;
      }
      position := position + |text|;
    }
  }

  /** The wrapped java.io.Reader: how many characters a read delivers is its own choice. */
  class Reader {
    var rest: string

    constructor (text: string)
      ensures rest == text
    {
      rest := text;
    }

    method Read(target: CharBuffer) returns (n: int)
      requires target.Valid()
      modifies this, target`position, target.hb
      ensures target.Valid()
      ensures n == -1 ==> old(rest) == []
      ensures n <= 0 ==>
              rest == old(rest) && target.position == old(target.position) &&
              target.hb[..] == old(target.hb[..])
      ensures old(target.position < target.limit) ==> n == -1 || n >= 1
      ensures old(target.position == target.limit) ==> n == 0
      ensures n >= 0 ==> target.position == old(target.position) + n && n <= |old(rest)| && rest == old(rest)[n..]
      ensures n >= 0 ==> target.hb[..target.position] == old(target.hb[..target.position]) + old(rest)[..n]
    {
      var space := target.limit - target.position;
      if space == 0 {
        n := 0;
      } else if rest == [] {
        n := -1;
      } else {
        n :| 1 <= n <= space && n <= |rest|;
        target.Put(rest[..n]);
        rest := rest[n..];
      }
    }
  }

  lemma SliceOf(hb: array<char>, a: nat, b: nat, limit: nat)
    requires a <= b <= limit <= hb.Length
    ensures hb[..limit][a..b] == hb[a..b] && hb[..limit][a..] == hb[a..limit]
  {
    var s := hb[..limit];
    var x, y := s[a..], hb[a..limit];
    forall i | 0 <= i < limit - a
      ensures x[i] == y[i]
    {
      assert s[a + i] == hb[a + i];
    }
    var v, w := s[a..b], hb[a..b];
    forall i | 0 <= i < b - a
      ensures v[i] == w[i]
    {
      assert s[a + i] == hb[a + i];
    }
  }

  /** A buffer is doubled when it is full of characters of one line, so that line is nearly as long as the buffer. */
  lemma FullLine(capacity: nat, pending: string)
    requires 0 < capacity <= |pending| && '\n' !in pending[..capacity]
    ensures NextLine(pending).line.Some? && capacity <= |NextLine(pending).line.value| + 1
  {
    assert forall i :: 0 <= i < capacity ==> pending[i] in pending[..capacity];
  }

  lemma NothingToRead()
    ensures NextLine([]) == Cut(None, [])
  {
  }

  /**
   * What one call owes its caller: the next line, the rest of the stream, and a buffer no larger than the line needs.
   */
  ghost predicate Delivers(pending: string, capacity: nat, line: Option<string>, rest: string, newCapacity: nat) {
    && (if capacity > 0 then Cut(line, rest) == NextLine(pending)
        else line == None && rest == pending && newCapacity == 0)
    && capacity <= newCapacity
    && (capacity < newCapacity ==> line.Some? && newCapacity <= 2 * (|line.value| + 1))
  }

  class ReadLine {
    const rdr: Reader
    var buffer: CharBuffer
    var internalBufferSize: nat
    var eof: bool
    var eolFound: bool
    var lineLookAhead: bool
    var lastLine: bool  // the reference is either to this object or null
    var lineNbr: nat
    var nextStartPos: nat
    var startIndex: nat
    var endIndex: nat
    // the matcher's last match
    var matchStart: nat
    var matchEnd: nat

    ghost predicate Valid()
      reads this, buffer, buffer.hb, rdr
    {
      && buffer.Valid()
      && internalBufferSize == buffer.Capacity()
      && nextStartPos <= buffer.limit
      && startIndex <= endIndex <= buffer.Capacity()
      && (eof ==> rdr.rest == [])
      && (eolFound ==> buffer.position == 0)
      && (if eolFound
          then nextStartPos <= matchStart < matchEnd <= buffer.limit &&
            LeftmostMatch(buffer.hb[..buffer.limit], nextStartPos, matchStart, matchEnd)
          else '\n' !in buffer.hb[nextStartPos..buffer.limit])
    }

    /** What the callers have not been given yet: the rest of the buffer, then the rest of the reader. */
    ghost function Pending(): string
      reads this, buffer, buffer.hb, rdr
      requires Valid()
    {
      buffer.hb[nextStartPos..buffer.limit] + rdr.rest
    }

    /** The text the caller sees through the CharSequence last returned. */
    ghost function LastText(): Option<string>
      reads this, buffer, buffer.hb, rdr
      requires Valid()
    {
      if lastLine then Some(buffer.hb[startIndex..endIndex]) else None
    }

    constructor (rdr: Reader, internalBufferSize: nat)
      modifies rdr
      ensures Valid() && fresh(buffer) && fresh(buffer.hb)
      ensures this.rdr == rdr && buffer.Capacity() == internalBufferSize
      ensures Pending() == old(rdr.rest) && LastText() == None && !lineLookAhead && lineNbr == 0
    {
      this.rdr := rdr;
      this.internalBufferSize := internalBufferSize;
      buffer := new CharBuffer.Allocate(internalBufferSize);
      eof, eolFound, lineLookAhead, lastLine := false, false, false, false;
      lineNbr, nextStartPos, startIndex, endIndex := 0, 0, 0, 0;
      matchStart, matchEnd := 0, 0;
      new;
      hide LeftmostMatch;
      var filled := FillBuffer();
      if filled {
        FindFrom(0);
      }
      assert buffer.hb[0..buffer.limit] == buffer.hb[..buffer.limit];
    }

    /** Reads once behind what the buffer holds and turns the buffer to reading. Never called on a full buffer. */
    method FillBuffer() returns (filled: bool)
      requires buffer.Valid() && buffer.limit == buffer.Capacity() && !eof
      requires buffer.position < buffer.Capacity() || buffer.Capacity() == 0
      modifies this`eof, buffer, buffer.hb, rdr
      ensures buffer.Valid() && buffer.position == 0
      ensures buffer.hb[..buffer.limit] + rdr.rest == old(buffer.hb[..buffer.position] + rdr.rest)
      ensures filled <==> buffer.limit > 0
      ensures eof ==> rdr.rest == [] && buffer.hb[..buffer.limit] == old(buffer.hb[..buffer.position])
      ensures !eof && buffer.Capacity() > 0 ==> filled && |rdr.rest| < old(|rdr.rest|)
      ensures !eof && buffer.Capacity() == 0 ==> !filled
    {
      var hadRemaining := buffer.limit - buffer.position > 0;
      var savePos: int := buffer.position;
      var nbr := rdr.Read(buffer);
      savePos := buffer.position - savePos;
      if savePos != 0 {
        buffer.Flip();
      }
      eof := nbr == -1;
      if eof {
        buffer.limit := buffer.position;
        buffer.position := 0;
      }
      filled := buffer.limit - buffer.position > 0 && (savePos != 0 || hadRemaining);
    }

    /**
     * matcher.find() with the region [from, limit): the leftmost match of \r?\n, if any. The matcher reads the buffer
     * relative to its position, so its indices are those of the buffer while the position is 0.
     */
    method FindFrom(from: nat)
      requires buffer.Valid() && from <= buffer.limit && buffer.position == 0
      modifies this`eolFound, this`matchStart, this`matchEnd, this`nextStartPos
      ensures nextStartPos == from
      ensures if eolFound
              then from <= matchStart < matchEnd <= buffer.limit &&
                LeftmostMatch(buffer.hb[..buffer.limit], from, matchStart, matchEnd)
              else '\n' !in buffer.hb[from..buffer.limit]
    {
      nextStartPos := from;
      eolFound := false;
      ghost var s := buffer.hb[..buffer.limit];
      var i := from;
      while i < buffer.limit
        invariant from <= i <= buffer.limit && !eolFound
        invariant '\n' !in s[from..i]
        invariant i > from && i < buffer.limit && s[i - 1] == '\r' ==> s[i] != '\n'
      {
        assert s[i] == buffer.hb[i] && (i + 1 < buffer.limit ==> s[i + 1] == buffer.hb[i + 1]);
        var crLf := buffer.hb[i] == '\r' && i + 1 < buffer.limit && buffer.hb[i + 1] == '\n';
        if crLf || buffer.hb[i] == '\n' {
          matchStart, matchEnd, eolFound := i, if crLf then i + 2 else i + 1, true;
          FirstEolIsLeftmost(s, from, matchStart, matchEnd);
          return;
        }
        assert s[from..i + 1] == s[from..i] + [s[i]];
        i := i + 1;
      }
    }

    /** The core call: false stands for null, true for this object as the CharSequence of the next line. */
    method Next() returns (some: bool)
      requires Valid()
      modifies this, buffer, buffer.hb, rdr
      ensures Valid() && !lineLookAhead && some == lastLine
      ensures buffer == old(buffer) || (fresh(buffer) && fresh(buffer.hb))
      ensures old(lineLookAhead) ==>
              LastText() == old(LastText()) && Pending() == old(Pending()) &&
              lineNbr == old(lineNbr) && buffer == old(buffer)
      ensures !old(lineLookAhead) ==>
              Delivers(old(Pending()), old(buffer.Capacity()), LastText(), Pending(), buffer.Capacity())
      ensures !old(lineLookAhead) ==> lineNbr == old(lineNbr) + (if some then 1 else 0)
    {
      hide LeftmostMatch, Delivers;
      if lineLookAhead {
        lineLookAhead := false;
        return lastLine;
      }
      some := ReadLineImpl();
      lastLine := some;
    }

    /** The branch for a match in hand: slice off the line and look for the next match behind it. */
    method TakeMatch()
      requires Valid() && eolFound
      modifies this
      ensures Valid() && buffer == old(buffer) && lineNbr == old(lineNbr) + 1
      ensures lineLookAhead == old(lineLookAhead) && eof == old(eof)
      ensures Cut(Some(buffer.hb[startIndex..endIndex]), Pending()) == NextLine(old(Pending()))
    {
      hide NextLine, LeftmostMatch;
      SliceOf(buffer.hb, nextStartPos, matchStart, buffer.limit);
      SliceOf(buffer.hb, matchEnd, buffer.limit, buffer.limit);
      MatchBeforeMore(buffer.hb[..buffer.limit], nextStartPos, matchStart, matchEnd, rdr.rest);
      startIndex, endIndex := nextStartPos, matchStart;
      nextStartPos := matchEnd;
      // hitEnd() is false after this expression has matched
      eolFound := false;
      if nextStartPos < buffer.limit {
        FindFrom(nextStartPos);
      }
      lineNbr := lineNbr + 1;
    }

    /** At the end of the stream, the characters behind the last terminator are a line too. */
    method TakeTail()
      requires Valid() && !eolFound && eof && nextStartPos < buffer.limit
      modifies this, buffer`position
      ensures Valid() && buffer == old(buffer) && lineNbr == old(lineNbr) + 1
      ensures lineLookAhead == old(lineLookAhead)
      ensures Cut(Some(buffer.hb[startIndex..endIndex]), Pending()) == NextLine(old(Pending()))
    {
      buffer.position := nextStartPos;
      FindExact(Pending(), '\n', |Pending()|);
      assert Pending() == buffer.hb[nextStartPos..buffer.limit];
      nextStartPos := buffer.limit;
      lineNbr := lineNbr + 1;
      startIndex, endIndex := buffer.position, nextStartPos;
    }

    /** Moves the unread characters to the front of a buffer with free space behind them. */
    method MakeRoom()
      requires Valid()
      modifies this`buffer, this`internalBufferSize, buffer, buffer.hb
      ensures buffer == old(buffer) || (fresh(buffer) && fresh(buffer.hb))
      ensures buffer.Valid() && buffer.limit == buffer.Capacity() == internalBufferSize
      ensures buffer.position < buffer.Capacity() || buffer.Capacity() == 0
      ensures buffer.hb[..buffer.position] == old(buffer.hb[nextStartPos..buffer.limit])
      ensures buffer.Capacity() == old(buffer.Capacity()) ||
              (0 < old(buffer.Capacity()) == buffer.position && buffer.Capacity() == 2 * buffer.position)
    {
      buffer.position := nextStartPos;
      var remaining := buffer.limit - buffer.position;
      if remaining <= 0 {
        buffer.Clear();
      } else if remaining < buffer.Capacity() {
        buffer.Compact();
      } else {
        var prevBuffer := buffer;
        internalBufferSize := internalBufferSize * 2;
        buffer := new CharBuffer.Allocate(internalBufferSize);
        buffer.Put(prevBuffer.hb[prevBuffer.position..prevBuffer.limit]);
      }
    }

    /** One read behind the characters that stay, and a search through all of them. */
    method FillAgain() returns (filled: bool)
      requires buffer.Valid() && buffer.limit == buffer.Capacity() == internalBufferSize && !eof && !eolFound
      requires buffer.position < buffer.Capacity() || buffer.Capacity() == 0
      requires startIndex <= endIndex <= buffer.Capacity() && '\n' !in buffer.hb[..buffer.position]
      modifies this`eof, this`eolFound, this`matchStart, this`matchEnd, this`nextStartPos, buffer, buffer.hb, rdr
      ensures Valid() && Pending() == old(buffer.hb[..buffer.position] + rdr.rest)
      ensures filled ==> |rdr.rest| < old(|rdr.rest|) || eof
      ensures !filled ==> !eolFound && (Pending() == [] || buffer.Capacity() == 0)
    {
      hide LeftmostMatch;
      filled := FillBuffer();
      nextStartPos := 0;
      if filled {
        FindFrom(0);
      }
      assert buffer.hb[0..buffer.limit] == buffer.hb[..buffer.limit];
    }

    /** The branch without a match: read more behind the unread characters and look again. */
    method Refill() returns (filled: bool)
      requires Valid() && !eolFound && !eof
      modifies this, buffer, buffer.hb, rdr
      ensures Valid() && Pending() == old(Pending()) && lineNbr == old(lineNbr) && lineLookAhead == old(lineLookAhead)
      ensures buffer == old(buffer) || (fresh(buffer) && fresh(buffer.hb))
      ensures filled ==> |rdr.rest| < old(|rdr.rest|) || eof
      ensures !filled ==> !eolFound && (Pending() == [] || buffer.Capacity() == 0)
      ensures old(buffer.Capacity()) <= buffer.Capacity() && (old(buffer.Capacity()) == 0 ==> buffer.Capacity() == 0)
      ensures old(buffer.Capacity()) < buffer.Capacity() ==>
              NextLine(Pending()).line.Some? && buffer.Capacity() <= 2 * (|NextLine(Pending()).line.value| + 1)
    {
      hide NextLine, LeftmostMatch;
      ghost var unread := buffer.hb[nextStartPos..buffer.limit];
      MakeRoom();
      ghost var n := buffer.position;
      assert buffer.hb[..n] == unread;
      filled := FillAgain();
      assert Pending()[..n] == unread;
      if buffer.Capacity() != old(buffer.Capacity()) {
        FullLine(n, Pending());
      }
    }

    method ReadLineImpl() returns (some: bool)
      requires Valid() && !lineLookAhead
      modifies this, buffer, buffer.hb, rdr
      ensures Valid() && !lineLookAhead
      ensures buffer == old(buffer) || (fresh(buffer) && fresh(buffer.hb))
      ensures lineNbr == old(lineNbr) + (if some then 1 else 0)
      ensures Delivers(old(Pending()), old(buffer.Capacity()),
                       if some then Some(buffer.hb[startIndex..endIndex]) else None,
                       Pending(), buffer.Capacity())
    {
      hide LeftmostMatch, NextLine;
      NothingToRead();
      ghost var pending := Pending();
      ghost var cap := buffer.Capacity();
      while true
        invariant Valid() && !lineLookAhead && Pending() == pending && lineNbr == old(lineNbr)
        invariant buffer == old(buffer) || (fresh(buffer) && fresh(buffer.hb))
        invariant cap == 0 ==> buffer.Capacity() == 0
        invariant cap <= buffer.Capacity()
        invariant cap < buffer.Capacity() ==>
                  NextLine(pending).line.Some? && buffer.Capacity() <= 2 * (|NextLine(pending).line.value| + 1)
        decreases |rdr.rest|, !eof
      {
        if eolFound {
          TakeMatch();
          return true;
        }
        if eof {
          if nextStartPos == buffer.limit {
            break;
          }
          TakeTail();
          return true;
        }
        var filled := Refill();
        if !filled {
          break;
        }
      }
      NoMore();
      some := false;
    }

    method NoMore()
      requires Valid() && !eolFound && (Pending() == [] || buffer.Capacity() == 0)
      modifies this`nextStartPos, this`startIndex, this`endIndex, buffer`position
      ensures Valid() && Pending() == old(Pending())
    {
      nextStartPos := buffer.limit;
      buffer.position := nextStartPos;
      startIndex, endIndex := 0, 0;
    }

    /** Asks for the line just read once more. */
    method WasLineLookAhead()
      requires Valid()
      modifies this`lineLookAhead
      ensures Valid() && lineLookAhead
    {
      lineLookAhead := true;
    }

    /** A retained copy of the line just read. */
    method ToString() returns (text: string)
      requires Valid()
      ensures text == buffer.hb[startIndex..endIndex]
    {
      text := "";
      var index := 0;
      while index < endIndex - startIndex
        invariant 0 <= index <= endIndex - startIndex
        invariant text == buffer.hb[startIndex..startIndex + index]
      {
        text := text + [buffer.hb[startIndex + index]];
        index := index + 1;
      }
    }
  }

  /** Where a reading stands between calls: the lines taken so far, and the bound on the buffer. */
  ghost predicate Reading(text: string, initial: nat, lines: seq<string>, pending: string, capacity: nat) {
    && 0 < capacity <= Max(initial, 2 * (LongestLine(lines) + 1))
    && Split(text) == lines + Split(pending)
  }

  /** The same with the outcome of a call in hand. */
  ghost predicate Holding(text: string, initial: nat, lines: seq<string>, line: Option<string>, pending: string,
      capacity: nat) {
    match line
    case Some(l) => Reading(text, initial, lines + [l], pending, capacity)
    case None => Reading(text, initial, lines, pending, capacity) && pending == []
  }

  lemma DeliverStep(text: string, initial: nat, lines: seq<string>, pending: string, capacity: nat,
                    line: Option<string>, rest: string, newCapacity: nat)
    requires Reading(text, initial, lines, pending, capacity)
    requires Delivers(pending, capacity, line, rest, newCapacity)
    ensures Holding(text, initial, lines, line, rest, newCapacity)
    ensures if line.Some? then |rest| < |pending| else |rest| <= |pending|
  {
    hide NextLine, Find, LongestLine;
    SplitStep(pending);
    if line.Some? {
      Associate(lines, [line.value], Split(rest));
      LongestLineSnoc(lines, line.value);
    }
  }

  /**
   * Reading to the end: however the reader chunks the stream, the lines are the split of the whole stream exactly when
   * the buffer started with room for a character (a buffer of size 0 is cleared, stays at size 0 and reads nothing).
   */
  method ReadAll(text: string, internalBufferSize: nat) returns (lines: seq<string>, capacity: nat)
    ensures lines == Split(text) <==> internalBufferSize > 0 || text == []
    ensures internalBufferSize == 0 ==> lines == []
    ensures capacity <= Max(internalBufferSize, 2 * (LongestLine(lines) + 1))
  {
    hide NextLine, LeftmostMatch;
    var rdr := new Reader(text);
    var r := new ReadLine(rdr, internalBufferSize);
    lines := [];
    ghost var p, c := r.Pending(), r.buffer.Capacity();
    var some := r.Next();
    if internalBufferSize > 0 {
      DeliverStep(text, internalBufferSize, lines, p, c, r.LastText(), r.Pending(), r.buffer.Capacity());
    }
    while some
      invariant r.Valid() && r.rdr == rdr && fresh(r.buffer) && fresh(r.buffer.hb)
      invariant !r.lineLookAhead && some == r.lastLine
      invariant if internalBufferSize > 0
                then Holding(text, internalBufferSize, lines, r.LastText(), r.Pending(), r.buffer.Capacity())
                else !some && lines == [] && r.buffer.Capacity() == 0
      decreases |r.Pending()|, some
    {
      var line := r.ToString();
      lines := lines + [line];
      p, c := r.Pending(), r.buffer.Capacity();
      some := r.Next();
      DeliverStep(text, internalBufferSize, lines, p, c, r.LastText(), r.Pending(), r.buffer.Capacity());
    }
    capacity := r.buffer.Capacity();
  }

  /**
   * What a caller is given that asks for the last line once more where the script says so, and for the next one
   * elsewhere.
   */
  function Answers(lines: seq<string>, last: Option<string>, script: seq<bool>): (r: seq<Option<string>>)
    ensures |r| == |script|
    decreases |script|
  {
    if script == [] then []
    else if script[0] then [last] + Answers(lines, last, script[1..])
    else if lines == [] then [None] + Answers([], None, script[1..])
    else [Some(lines[0])] + Answers(lines[1..], Some(lines[0]), script[1..])
  }

  /** Without look-ahead, the lines one by one and then null for ever. */
  lemma {:induction false} AnswersInOrder(lines: seq<string>, last: Option<string>, script: seq<bool>, i: nat)
    requires i < |script| && forall k :: 0 <= k <= i ==> !script[k]
    ensures Answers(lines, last, script)[i] == if i < |lines| then Some(lines[i]) else None
    decreases i
  {
    if i > 0 {
      if lines == [] {
        AnswersInOrder([], None, script[1..], i - 1);
      } else {
        AnswersInOrder(lines[1..], Some(lines[0]), script[1..], i - 1);
      }
    }
  }

  /** A null for the next line is the last answer but for more nulls, whatever is asked. */
  lemma {:induction false} NullForEver(lines: seq<string>, last: Option<string>, script: seq<bool>, i: nat, j: nat)
    requires i <= j < |script| && !script[i] && Answers(lines, last, script)[i] == None
    ensures Answers(lines, last, script)[j] == None
    decreases j
  {
    if j > 0 {
      var rest := script[1..];
      if i == 0 {
        assert lines == [];
        NothingLeft(rest, j - 1);
      } else if script[0] {
        NullForEver(lines, last, rest, i - 1, j - 1);
      } else if lines == [] {
        NothingLeft(rest, j - 1);
      } else {
        NullForEver(lines[1..], Some(lines[0]), rest, i - 1, j - 1);
      }
    }
  }

  lemma {:induction false} NothingLeft(script: seq<bool>, j: nat)
    requires j < |script|
    ensures Answers([], None, script)[j] == None
    decreases j
  {
    if j > 0 {
      NothingLeft(script[1..], j - 1);
    }
  }

  /** The lines still to come. */
  ghost function ToCome(pending: string, capacity: nat): seq<string> {
    if capacity > 0 then Split(pending) else []
  }

  lemma DeliversNext(pending: string, capacity: nat, line: Option<string>, rest: string, newCapacity: nat)
    requires Delivers(pending, capacity, line, rest, newCapacity)
    ensures var lines := ToCome(pending, capacity);
            if lines == [] then line == None && ToCome(rest, newCapacity) == []
            else line == Some(lines[0]) && ToCome(rest, newCapacity) == lines[1..]
    ensures capacity > 0 <==> newCapacity > 0
  {
    SplitStep(pending);
  }

  /** One call, with or without a look-ahead request before it, and a copy of its line. */
  method Ask(r: ReadLine, lookAhead: bool) returns (answer: Option<string>)
    requires r.Valid() && !r.lineLookAhead
    modifies r, r.buffer, r.buffer.hb, r.rdr
    ensures r.Valid() && !r.lineLookAhead && answer == r.LastText()
    ensures r.buffer == old(r.buffer) || (fresh(r.buffer) && fresh(r.buffer.hb))
    ensures r.buffer.Capacity() > 0 <==> old(r.buffer.Capacity()) > 0
    ensures var todo, left := old(ToCome(r.Pending(), r.buffer.Capacity())), ToCome(r.Pending(), r.buffer.Capacity());
            if lookAhead then answer == old(r.LastText()) && left == todo
            else if todo == [] then answer == None && left == []
            else answer == Some(todo[0]) && left == todo[1..]
  {
    hide LeftmostMatch, Delivers, ToCome;
    if lookAhead {
      r.WasLineLookAhead();
    }
    var some := r.Next();
    if !lookAhead {
      DeliversNext(old(r.Pending()), old(r.buffer.Capacity()), r.LastText(), r.Pending(), r.buffer.Capacity());
    }
    answer := None;
    if some {
      var line := r.ToString();
      answer := Some(line);
    }
  }

  /** Reading in any pattern of look-aheads and calls, past the end of the stream too. */
  method ReadScript(text: string, internalBufferSize: nat, script: seq<bool>) returns (answers: seq<Option<string>>)
    ensures answers == Answers(if internalBufferSize > 0 then Split(text) else [], None, script)
  {
    hide LeftmostMatch, Split, Answers;
    var rdr := new Reader(text);
    var r := new ReadLine(rdr, internalBufferSize);
    answers := [];
    ghost var lines := if internalBufferSize > 0 then Split(text) else [];
    var i := 0;
    while i < |script|
      invariant 0 <= i <= |script| && r.Valid() && r.rdr == rdr && fresh(r.buffer) && fresh(r.buffer.hb)
      invariant !r.lineLookAhead
      invariant Answers(lines, None, script) ==
                answers + Answers(ToCome(r.Pending(), r.buffer.Capacity()), r.LastText(), script[i..])
    {
      hide ToCome, ReadLine.Valid, ReadLine.Pending, ReadLine.LastText;
      AnswersStep(ToCome(r.Pending(), r.buffer.Capacity()), r.LastText(), script[i..]);
      assert script[i..][1..] == script[i + 1..];
      var answer := Ask(r, script[i]);
      Associate(answers, [answer], Answers(ToCome(r.Pending(), r.buffer.Capacity()), answer, script[i + 1..]));
      answers := answers + [answer];
      i := i + 1;
    }
    AnswersStep(ToCome(r.Pending(), r.buffer.Capacity()), r.LastText(), []);
    assert answers + [] == answers && script[i..] == [];
  }

  lemma AnswersStep(lines: seq<string>, last: Option<string>, script: seq<bool>)
    ensures Answers(lines, last, script) ==
            if script == [] then []
            else if script[0] then [last] + Answers(lines, last, script[1..])
            else if lines == [] then [None] + Answers([], None, script[1..])
            else [Some(lines[0])] + Answers(lines[1..], Some(lines[0]), script[1..])
  {
  }

  lemma {:induction false} LongestLineSnoc(lines: seq<string>, line: string)
    ensures LongestLine(lines + [line]) == Max(LongestLine(lines), |line|)
  {
    if lines == [] {
      assert LongestLine([line]) == Max(|line|, LongestLine([]));
    } else {
      assert (lines + [line])[1..] == lines[1..] + [line];
      LongestLineSnoc(lines[1..], line);
    }
  }
}
