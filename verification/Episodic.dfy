/**
  The episodic log: one entry per line, appended at the end and read backwards in chunks.
*/
module Episodic {
  import opened Wrappers
  import opened ByteWords

  /** What a line holds, or None when it is not an entry. */
  type Parser<!E> = Bytes -> Option<E>

  const NEW_LINE: Byte := 10

  // ---------------------------------------------------------------------
  // The forward scan
  // ---------------------------------------------------------------------

  /** The lines of a file; what follows the last newline is a line too. */
  function Lines(s: Bytes): (lines: seq<Bytes>)
    ensures |lines| >= 1
  {
    if s == [] then [[]] else Before(s[0], Lines(s[1..]))
  }

  /** The lines with one more character in front. */
  function Before(c: Byte, lines: seq<Bytes>): (more: seq<Bytes>)
    requires |lines| >= 1
    ensures |more| >= 1
  {
    if c == NEW_LINE then [[]] + lines else [[c] + lines[0]] + lines[1..]
  }

  lemma BeforeBoth(c: Byte, a: seq<Bytes>, b: seq<Bytes>)
    requires |a| >= 1
    ensures Before(c, a + b) == Before(c, a) + b
  {
  }

  /** Lines put back together, with a newline between any two. */
  function Joined(lines: seq<Bytes>): Bytes {
    if lines == [] then [] else if |lines| == 1 then lines[0] else lines[0] + [NEW_LINE] + Joined(lines[1..])
  }

  /** The lines have no newlines, and they make up the file. */
  lemma {:induction false} LinesAreExact(s: Bytes)
    ensures Joined(Lines(s)) == s
    ensures forall line <- Lines(s) :: NEW_LINE !in line
  {
    if s != [] {
      var rest := Lines(s[1..]);
      LinesAreExact(s[1..]);
      if s[0] == NEW_LINE {
        assert Lines(s)[1..] == rest;
      } else {
        var first := [s[0]] + rest[0];
        assert Lines(s)[1..] == rest[1..];
        assert Joined(Lines(s)) == [s[0]] + Joined(rest);
        assert NEW_LINE !in first;
      }
      assert s == [s[0]] + s[1..];
    }
  }

  /** A line of white space is no entry, whatever the parser makes of it. */
  predicate Blank(line: Bytes) {
    forall c <- line :: c == 32 || 9 <= c <= 13
  }

  function Entry<E>(line: Bytes, parse: Parser<E>): Option<E> {
    if Blank(line) then None else parse(line)
  }

  function Reader<E>(parse: Parser<E>): Parser<E> {
    (line: Bytes) => Entry(line, parse)
  }

  function AsList<E>(e: Option<E>): seq<E> {
    if e.Some? then [e.value] else []
  }

  /** What can be read of the elements, in order. */
  function Entries<L, E>(lines: seq<L>, read: L -> Option<E>): seq<E> {
    if lines == [] then [] else AsList(read(lines[0])) + Entries(lines[1..], read)
  }

  /** The last n elements, or all of them. */
  function Last<E>(es: seq<E>, n: int): seq<E> {
    if n <= 0 then [] else if n < |es| then es[|es| - n..] else es
  }

  function History<E>(content: Bytes, limit: int, parse: Parser<E>): seq<E> {
    Last(Entries(Lines(content), Reader(parse)), limit)
  }

  /** As many as the limit allows and there are, each in its place, counted from the end. */
  ghost predicate Newest<E>(h: seq<E>, all: seq<E>, limit: int) {
    && |h| == (if limit < 0 then 0 else if limit < |all| then limit else |all|)
    && forall i :: 0 <= i < |h| ==> h[i] == all[|all| - |h| + i]
  }

  lemma LastAreNewest<E>(es: seq<E>, n: int)
    ensures Newest(Last(es, n), es, n)
  {
  }

  /** What is loaded are the newest entries of the file. */
  lemma HistoryIsNewest<E>(content: Bytes, limit: int, parse: Parser<E>)
    ensures Newest(History(content, limit, parse), Entries(Lines(content), Reader(parse)), limit)
  {
    LastAreNewest(Entries(Lines(content), Reader(parse)), limit);
  }

  // ---------------------------------------------------------------------
  // Lines across a chunk boundary
  // ---------------------------------------------------------------------

  lemma {:induction false} OneLine(s: Bytes)
    requires NEW_LINE !in s
    ensures Lines(s) == [s]
  {
    if s != [] {
      OneLine(s[1..]);
      assert [s[0]] + s[1..] == s;
    }
  }

  lemma FirstLineAlone(s: Bytes)
    ensures Lines(s) == Lines(Lines(s)[0]) + Lines(s)[1..]
  {
    LinesAreExact(s);
    OneLine(Lines(s)[0]);
  }

  /** To split what precedes a text, its first line is enough. */
  lemma {:induction false} FirstLineSuffices(chunk: Bytes, s: Bytes)
    ensures Lines(chunk + s) == Lines(chunk + Lines(s)[0]) + Lines(s)[1..]
    decreases |chunk|
  {
    var first, later := Lines(s)[0], Lines(s)[1..];
    if chunk == [] {
      FirstLineAlone(s);
      assert [] + s == s && [] + first == first;
    } else {
      FirstLineSuffices(chunk[1..], s);
      BeforeBoth(chunk[0], Lines(chunk[1..] + first), later);
      LinesFrom(chunk, s);
      LinesFrom(chunk, first);
    }
  }

  lemma LinesFrom(chunk: Bytes, s: Bytes)
    requires chunk != []
    ensures Lines(chunk + s) == Before(chunk[0], Lines(chunk[1..] + s))
  {
    assert (chunk + s)[1..] == chunk[1..] + s;
  }

  lemma {:induction false} EntriesOfBoth<L, E>(a: seq<L>, b: seq<L>, read: L -> Option<E>)
    ensures Entries(a + b, read) == Entries(a, read) + Entries(b, read)
    decreases |a|
  {
    if a == [] {
      assert a + b == b;
    } else {
      assert (a + b)[1..] == a[1..] + b;
      EntriesOfBoth(a[1..], b, read);
    }
  }

  // ---------------------------------------------------------------------
  // Recording
  // ---------------------------------------------------------------------

  lemma {:induction false} TerminatedLine(line: Bytes)
    requires NEW_LINE !in line
    ensures Lines(line + [NEW_LINE]) == [line, []]
  {
    if line == [] {
      assert [NEW_LINE][1..] == [];
      assert [] + [NEW_LINE] == [NEW_LINE];
    } else {
      TerminatedLine(line[1..]);
      assert (line + [NEW_LINE])[1..] == line[1..] + [NEW_LINE];
      assert [line[0]] + line[1..] == line;
    }
  }

  function WithLast(lines: seq<Bytes>, line: Bytes): seq<Bytes>
    requires |lines| >= 1
  {
    lines[..|lines| - 1] + [lines[|lines| - 1] + line, []]
  }

  lemma BeforeWithLast(c: Byte, lines: seq<Bytes>, line: Bytes)
    requires |lines| >= 1
    ensures Before(c, WithLast(lines, line)) == WithLast(Before(c, lines), line)
  {
    if c == NEW_LINE {
      assert ([[]] + lines)[..|lines|] == [[]] + lines[..|lines| - 1];
    } else if |lines| == 1 {
      assert [c] + (lines[0] + line) == ([c] + lines[0]) + line;
    }
  }

  /** A recorded line completes the last line of the file; an earlier torn write spoils nothing else. */
  lemma {:induction false} RecordCompletesLastLine(content: Bytes, line: Bytes)
    requires NEW_LINE !in line
    ensures Lines(content + line + [NEW_LINE]) == WithLast(Lines(content), line)
  {
    if content == [] {
      TerminatedLine(line);
      assert [] + line + [NEW_LINE] == line + [NEW_LINE];
      assert [] + line == line;
    } else {
      RecordCompletesLastLine(content[1..], line);
      BeforeWithLast(content[0], Lines(content[1..]), line);
      assert (content + line + [NEW_LINE])[1..] == content[1..] + line + [NEW_LINE];
    }
  }

  /** The file after entries have been recorded, one after another. */
  function Written<E>(es: seq<E>, print_: E -> Bytes): Bytes {
    if es == [] then []
    else Written(es[..|es| - 1], print_) + print_(es[|es| - 1]) + [NEW_LINE]
  }

  lemma OneEntry<L, E>(line: L, read: L -> Option<E>)
    ensures Entries([line], read) == AsList(read(line))
  {
    assert [line][1..] == [];
  }

  lemma EntryCompleted<L, E>(front: seq<L>, none: L, line: L, e: E, read: L -> Option<E>)
    requires read(none) == None && read(line) == Some(e)
    ensures Entries(front + [line, none], read) == Entries(front + [none], read) + [e]
  {
    assert front + [line, none] == front + [line] + [none];
    EntriesOfBoth(front, [none], read);
    EntriesOfBoth(front + [line], [none], read);
    EntriesOfBoth(front, [line], read);
    OneEntry(none, read);
    OneEntry(line, read);
  }

  lemma EntriesWithLast<E>(lines: seq<Bytes>, line: Bytes, e: E, read: Parser<E>)
    requires |lines| >= 1 && lines[|lines| - 1] == [] && read([]) == None && read(line) == Some(e)
    ensures Entries(WithLast(lines, line), read) == Entries(lines, read) + [e]
  {
    var m := |lines| - 1;
    assert [] + line == line;
    assert lines == lines[..m] + [[]];
    EntryCompleted(lines[..m], [], line, e, read);
  }

  lemma {:induction false} WrittenEntries<E>(es: seq<E>, print_: E -> Bytes, read: Parser<E>)
    requires read([]) == None
    requires forall e <- es :: NEW_LINE !in print_(e) && read(print_(e)) == Some(e)
    ensures Entries(Lines(Written(es, print_)), read) == es
    ensures Lines(Written(es, print_))[|Lines(Written(es, print_))| - 1] == []
    decreases |es|
  {
    if es == [] {
      OneEntry([], read);
    } else {
      var n := |es| - 1;
      var e := es[n];
      WrittenEntries(es[..n], print_, read);
      assert e in es;
      RecordCompletesLastLine(Written(es[..n], print_), print_(e));
      EntriesWithLast(Lines(Written(es[..n], print_)), print_(e), e, read);
      assert es == es[..n] + [e];
    }
  }

  /** What was recorded is what is loaded: the last entries, in the order of recording. */
  lemma RecordedIsLoaded<E>(es: seq<E>, limit: int, print_: E -> Bytes, parse: Parser<E>)
    requires forall e <- es :: NEW_LINE !in print_(e) && Entry(print_(e), parse) == Some(e)
    ensures History(Written(es, print_), limit, parse) == Last(es, limit)
  {
    WrittenEntries(es, print_, Reader(parse));
  }

  // ---------------------------------------------------------------------
  // The backward reader
  // ---------------------------------------------------------------------

  function Reversed<E>(s: seq<E>): (r: seq<E>)
    ensures |r| == |s| && forall i :: 0 <= i < |s| ==> r[i] == s[|s| - 1 - i]
  {
    seq(|s|, i requires 0 <= i < |s| => s[|s| - 1 - i])
  }

  /** The newest entries come first, and no more than the limit of them. */
  ghost predicate Collected<E>(found: seq<E>, all: seq<E>, limit: int) {
    found == Reversed(Last(all, limit))
  }

  /** One more line at the front. */
  lemma CollectOne<E>(found: seq<E>, all: seq<E>, e: E, limit: int)
    requires Collected(found, all, limit) && limit > 0
    ensures Collected(if |found| < limit then found + [e] else found, [e] + all, limit)
  {
    if |all| < limit {
      assert Reversed([e] + all) == Reversed(all) + [e];
    } else {
      assert ([e] + all)[|all| + 1 - limit..] == all[|all| - limit..];
    }
  }

  function Added<E>(found: seq<E>, e: Option<E>, limit: int): seq<E> {
    if e.Some? && |found| < limit then found + [e.value] else found
  }

  lemma FirstEntry<E>(lines: seq<Bytes>, k: nat, all: seq<E>, read: Parser<E>)
    requires k < |lines|
    ensures Entries(lines[k..], read) + all
         == AsList(read(lines[k])) + (Entries(lines[k + 1..], read) + all)
  {
    assert lines[k..][0] == lines[k] && lines[k..][1..] == lines[k + 1..];
  }

  lemma CollectOption<E>(found: seq<E>, all: seq<E>, e: Option<E>, limit: int)
    requires Collected(found, all, limit) && limit > 0
    ensures Collected(Added(found, e, limit), AsList(e) + all, limit)
  {
    if e.Some? {
      CollectOne(found, all, e.value, limit);
    } else {
      assert AsList(e) + all == all;
    }
  }

  lemma CollectLine<E>(found: seq<E>, lines: seq<Bytes>, k: nat, all: seq<E>, limit: int, read: Parser<E>)
    requires k < |lines| && limit > 0 && Collected(found, Entries(lines[k + 1..], read) + all, limit)
    ensures Collected(Added(found, read(lines[k]), limit), Entries(lines[k..], read) + all, limit)
  {
    FirstEntry(lines, k, all, read);
    CollectOption(found, Entries(lines[k + 1..], read) + all, read(lines[k]), limit);
  }

  /** The reader has seen the file from pos on but for the line that ends there. */
  ghost predicate Reading<E>(content: Bytes, pos: nat, buffer: Bytes, found: seq<E>, limit: int, read: Parser<E>) {
    && pos <= |content| && buffer == Lines(content[pos..])[0]
    && Collected(found, Entries(Lines(content[pos..])[1..], read), limit)
  }

  lemma StartReading<E>(content: Bytes, limit: int, read: Parser<E>)
    ensures Reading(content, |content|, [], [], limit, read)
  {
    assert content[|content|..] == [];
  }

  lemma TailOfSum<L, E>(all: seq<L>, a: seq<L>, b: seq<L>, read: L -> Option<E>)
    requires |a| >= 1 && all == a + b
    ensures all[0] == a[0] && Entries(all[1..], read) == Entries(a[1..], read) + Entries(b, read)
  {
    assert all[1..] == a[1..] + b;
    EntriesOfBoth(a[1..], b, read);
  }

  lemma EntriesAcross<E>(chunk: Bytes, later: Bytes, lines: seq<Bytes>, read: Parser<E>)
    requires lines == Lines(chunk + Lines(later)[0])
    ensures Lines(chunk + later)[0] == lines[0]
    ensures Entries(Lines(chunk + later)[1..], read) == Entries(lines[1..], read) + Entries(Lines(later)[1..], read)
  {
    FirstLineSuffices(chunk, later);
    TailOfSum(Lines(chunk + later), lines, Lines(later)[1..], read);
  }

  lemma ReadChunk<E>(content: Bytes, was: nat, pos: nat, before: Bytes, found: seq<E>, limit: int, read: Parser<E>,
                     lines: seq<Bytes>)
    requires pos <= was <= |content| && before == Lines(content[was..])[0] && lines == Lines(content[pos..was] + before)
    requires Collected(found, Entries(lines[1..], read) + Entries(Lines(content[was..])[1..], read), limit)
    ensures Reading(content, pos, lines[0], found, limit, read)
  {
    EntriesAcross(content[pos..was], content[was..], lines, read);
    assert content[pos..] == content[pos..was] + content[was..];
  }

  lemma CollectFirst<L, E>(found: seq<E>, lines: seq<L>, limit: int, read: L -> Option<E>)
    requires lines != [] && limit > 0 && Collected(found, Entries(lines[1..], read), limit)
    ensures Collected(Added(found, read(lines[0]), limit), Entries(lines, read), limit)
  {
    CollectOption(found, Entries(lines[1..], read), read(lines[0]), limit);
  }

  /** When the limit or the start of the file is reached, the line left over decides nothing or is the last. */
  lemma FinishReading<E>(content: Bytes, pos: nat, buffer: Bytes, found: seq<E>, limit: int, read: Parser<E>)
    requires Reading(content, pos, buffer, found, limit, read) && limit > 0
    requires pos == 0 || |found| >= limit
    ensures Collected(Added(found, read(buffer), limit), Entries(Lines(content), read), limit)
  {
    var later := Entries(Lines(content[pos..])[1..], read);
    if |found| >= limit {
      assert content == content[..pos] + content[pos..];
      EntriesAfter(content, content[..pos], content[pos..], read);
      FullStaysFull(found, Entries(Lines(content[..pos] + buffer), read), later, limit);
    } else {
      assert content[0..] == content;
      CollectFirst(found, Lines(content), limit, read);
    }
  }

  /** Once the limit is reached, earlier entries do not matter. */
  lemma FullStaysFull<E>(found: seq<E>, earlier: seq<E>, all: seq<E>, limit: int)
    requires Collected(found, all, limit) && |found| == limit
    ensures Collected(found, earlier + all, limit)
  {
    if limit > 0 {
      assert (earlier + all)[|earlier + all| - limit..] == all[|all| - limit..];
    }
  }

  lemma ReverseCollected<E>(found: seq<E>, all: seq<E>, limit: int)
    requires Collected(found, all, limit)
    ensures Reversed(found) == Last(all, limit)
  {
  }

  lemma EntriesAfter<E>(content: Bytes, before: Bytes, later: Bytes, read: Parser<E>)
    requires content == before + later
    ensures Entries(Lines(content), read)
         == Entries(Lines(before + Lines(later)[0]), read) + Entries(Lines(later)[1..], read)
  {
    FirstLineSuffices(before, later);
    EntriesOfBoth(Lines(before + Lines(later)[0]), Lines(later)[1..], read);
  }

  class EpisodicMemory<!E> {
    /** None until the first entry is recorded. */
    var file: Option<Bytes>

    constructor ()
      ensures file == None
    {
      file := None;
    }

    /** Appends a line. */
    method Record(line: Bytes)
      modifies this
      ensures file == Some((if old(file).Some? then old(file).value else []) + line + [NEW_LINE])
    {
      file := Some((if file.Some? then file.value else []) + line + [NEW_LINE]);
    }

    /** The most recent entries, in file order, for every size of the chunks. */
    method LoadHistory(limit: int, parse: Parser<E>, chunkSize: nat) returns (entries: seq<E>)
      requires chunkSize >= 1
      ensures entries == if file.Some? then History(file.value, limit, parse) else []
    {
      if file.None? || limit <= 0 {
        return [];
      }
      entries := ReadBackwards(file.value, limit, parse, chunkSize);
      ReverseCollected(entries, Entries(Lines(file.value), Reader(parse)), limit);
      entries := Reversed(entries);
    }

    method ReadBackwards(content: Bytes, limit: int, parse: Parser<E>, chunkSize: nat) returns (entries: seq<E>)
      requires chunkSize >= 1 && limit > 0
      ensures Collected(entries, Entries(Lines(content), Reader(parse)), limit)
    {
      entries := [];
      var pos: nat := |content|;
      var buffer: Bytes := [];
      StartReading(content, limit, Reader(parse));
      while pos > 0 && |entries| < limit
        invariant Reading(content, pos, buffer, entries, limit, Reader(parse))
      {
        ghost var was, before := pos, buffer;
        var readSize := if chunkSize < pos then chunkSize else pos;
        pos := pos - readSize;
        var chunk := content[pos..pos + readSize];
        var lines := Lines(chunk + buffer);
        buffer := lines[0];
        entries := TakeLines(entries, lines[1..], limit, parse, Entries(Lines(content[was..])[1..], Reader(parse)));
        ReadChunk(content, was, pos, before, entries, limit, Reader(parse), lines);
      }
      FinishReading(content, pos, buffer, entries, limit, Reader(parse));
      if pos == 0 && !Blank(buffer) && |entries| < limit {
        var e := parse(buffer);
        if e.Some? {
          entries := entries + [e.value];
        }
      }
    }

    /** The lines of a chunk, last line first. */
    method TakeLines(before: seq<E>, lines: seq<Bytes>, limit: int, parse: Parser<E>, ghost all: seq<E>)
      returns (entries: seq<E>)
      requires limit > 0 && Collected(before, all, limit)
      ensures Collected(entries, Entries(lines, Reader(parse)) + all, limit)
    {
      entries := before;
      assert lines[|lines|..] == [] && [] + all == all;
      for k := |lines| downto 0
        invariant Collected(entries, Entries(lines[k..], Reader(parse)) + all, limit)
      {
        CollectLine(entries, lines, k, all, limit, Reader(parse));
        if !Blank(lines[k]) && |entries| < limit {
          var e := parse(lines[k]);
          if e.Some? {
            entries := entries + [e.value];
          }
        }
      }
      assert lines[0..] == lines;
    }
  }
}
