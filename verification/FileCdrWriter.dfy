/** The file CDR writer: a growing file and an index of line offsets into it. */
module FileCdrWriters {
  import opened CdrAccess
  import opened CdrText

  const TITLE := "CDR started\n"
  const HEADINGS := "IMSI, Action, Timestamp\n"

  /** A record as it comes back from its line. */
  function BackAs(r: CdrRecord): CdrRecord {
    ParsedLine(UpTo(Line(r), '\n'))
  }

  /** The records as they come back from their lines. */
  function Reread(rs: seq<CdrRecord>): seq<CdrRecord> {
    seq(|rs|, i requires 0 <= i < |rs| => BackAs(rs[i]))
  }

  /** Records come back field for field iff all of them are clean. */
  lemma RereadExactly(rs: seq<CdrRecord>)
    ensures Reread(rs) == rs <==> forall r :: r in rs ==> CleanRecord(r)
  {
    forall i | 0 <= i < |rs| ensures Reread(rs)[i] == rs[i] <==> CleanRecord(rs[i]) {
      LineRoundTripExactly(rs[i]);
    }
    if Reread(rs) == rs {
      forall r | r in rs ensures CleanRecord(r) {
        var i :| 0 <= i < |rs| && rs[i] == r;
        assert Reread(rs)[i] == rs[i];
      }
    }
  }

  /** One more line read. */
  lemma RereadSnoc(rs: seq<CdrRecord>, from: nat, to: nat, result: seq<CdrRecord>, record: CdrRecord)
    requires from <= to < |rs| && result == Reread(rs[from..to])
    requires record == BackAs(rs[to])
    ensures result + [record] == Reread(rs[from..to + 1])
  {
    assert rs[from..to + 1] == rs[from..to] + [rs[to]];
  }

  lemma RecentCommute(rs: seq<CdrRecord>, limit: nat)
    ensures Reread(Recent(rs, limit)) == Recent(Reread(rs), limit)
  {
  }

  lemma RecentReadBack(rs: seq<CdrRecord>, limit: nat)
    ensures LastOnes(Reread(rs), limit, Reread(Recent(rs, limit)))
  {
    RecentCommute(rs, limit);
    RecentAreLast(Reread(rs), limit);
  }

  /** `pos` is where the line of `r` starts in the text. */
  predicate StartsAt(text: string, pos: nat, r: CdrRecord) {
    pos <= |text| && Line(r) <= text[pos..]
  }

  lemma StartsAtStays(text: string, more: string, pos: nat, r: CdrRecord)
    requires StartsAt(text, pos, r)
    ensures StartsAt(text + more, pos, r)
  {
    assert (text + more)[pos..] == text[pos..] + more;
  }

  /** Reading one line from the start of a record's line sees that line alone. */
  lemma ReadLineAt(text: string, pos: nat, r: CdrRecord)
    requires StartsAt(text, pos, r)
    ensures UpTo(text[pos..], '\n') == UpTo(Line(r), '\n')
  {
    var line := Line(r);
    assert line[|line| - 1] == '\n';
    assert text[pos..] == line + text[pos..][|line|..];
    UpToInside(line, text[pos..][|line|..], '\n');
  }

  class FileCdrWriter {
    var writeOpen: bool
    var readOpen: bool
    var disk: string    // what is in the file
    var pending: string // what the output stream still holds back
    var offset: nat     // the file offset of the output descriptor
    var index: seq<nat>
    var recordCount: nat
    ghost var records: seq<CdrRecord>  // what was written, in order

    /** Everything written so far, flushed or not. */
    function Text(): string
      reads this
    {
      disk + pending
    }

    /** While the file can be read back, index entry `i` is the offset of the line
        of record `i`. */
    ghost predicate Valid()
      reads this
    {
      && recordCount == |index|
      && (readOpen ==>
            && writeOpen && offset == |disk| && |records| == recordCount
            && forall i :: 0 <= i < recordCount ==> StartsAt(Text(), index[i], records[i]))
    }

    /** Opens the file behind whatever it holds; the banner is flushed at once,
        which moves the output offset to the end of the file. */
    constructor (prior: string, canWrite: bool, canRead: bool)
      ensures Valid() && records == [] && recordCount == 0
      ensures writeOpen == canWrite && readOpen == (canWrite && canRead)
      ensures Text() == prior + if readOpen then TITLE + HEADINGS else ""
    {
      disk, pending, offset, index, recordCount, records := prior, "", 0, [], 0, [];
      writeOpen, readOpen := canWrite, canWrite && canRead;
      new;
      if !writeOpen { return; }
      if !readOpen { return; }
      pending := pending + TITLE;
      pending := pending + HEADINGS;
      Spill(|pending|);
    }

    /** The stream writes out some of what it holds, at the end of the file. */
    method Spill(n: nat)
      modifies this`disk, this`pending, this`offset
      ensures Text() == old(Text())
      ensures n >= |old(pending)| ==> pending == ""
      ensures if n == 0 || old(pending) == "" then offset == old(offset) && disk == old(disk) else offset == |disk|
    {
      var k := Min(n, |pending|);
      if k > 0 {
        assert disk + pending == disk + pending[..k] + pending[k..];
        disk, pending := disk + pending[..k], pending[k..];
        offset := |disk|;
      }
    }

    /** `timestamp` is the local time without its newline; `spill` says how much
        of its buffer the stream happens to write out on the way. */
    method WriteAction(imsi: string, action: string, timestamp: string, spill: nat)
      requires Valid()
      modifies this
      ensures Valid() && writeOpen == old(writeOpen) && readOpen == old(readOpen)
      ensures if writeOpen then
                var r := CdrRecord(imsi, action, timestamp);
                records == old(records) + [r] && recordCount == old(recordCount) + 1 && Text() == old(Text()) + Line(r)
              else records == old(records) && recordCount == old(recordCount) && Text() == old(Text())
    {
      if !writeOpen { return; }
      var pos := offset + |pending|;
      ghost var past := Text();
      ghost var r := CdrRecord(imsi, action, timestamp);
      pending := pending + Line(CdrRecord(imsi, action, timestamp));
      assert Text() == past + Line(r);
      Spill(spill);
      index := index + [pos];
      recordCount := recordCount + 1;
      records := records + [r];
      if readOpen {
        assert Text()[pos..] == Line(r);
        forall i | 0 <= i < recordCount - 1 ensures StartsAt(Text(), index[i], records[i]) {
          StartsAtStays(past, Line(r), index[i], records[i]);
        }
      }
    }

    /** Seeks to the line of record `i` and parses it. */
    method ReadRecord(i: nat) returns (record: CdrRecord)
      requires Valid() && readOpen && pending == "" && i < recordCount
      ensures record == BackAs(records[i])
    {
      assert Text() == disk;
      ReadLineAt(disk, index[i], records[i]);
      record := ParseLine(UpTo(disk[index[i]..], '\n'));
    }

    /** Reads the lines of record `from` and all after it. */
    method ReadFrom(from: nat) returns (result: seq<CdrRecord>)
      requires Valid() && readOpen && pending == "" && from <= recordCount
      ensures result == Reread(records[from..])
    {
      result := [];
      var i := from;
      while i < recordCount
        invariant from <= i <= recordCount
        invariant result == Reread(records[from..i])
      {
        var record := ReadRecord(i);
        RereadSnoc(records, from, i, result, record);
        result := result + [record];
        i := i + 1;
      }
      assert records[from..i] == records[from..];
    }

    /** The last records written, in write order, as their lines read back. */
    method GetRecentRecords(limit: nat) returns (result: seq<CdrRecord>)
      requires Valid()
      modifies this`disk, this`pending, this`offset
      ensures Valid() && Text() == old(Text())
      ensures if readOpen then result == Reread(Recent(records, limit)) else result == []
      ensures readOpen ==>
                |records| == recordCount && LastOnes(Reread(records), limit, result)
    {
      result := [];
      if writeOpen { Spill(|pending|); }
      if readOpen {
        result := ReadFrom(recordCount - Granted(limit, recordCount));
        RecentReadBack(records, limit);
      }
    }
  }
}
