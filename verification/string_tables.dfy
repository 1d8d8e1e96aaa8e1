/** Section.cs: `StringTableSection.ReadFrom`, the reader of an ELF string
    table ("String Table" in the System V ABI, chapter "Object Files"):
    a NUL byte, then NUL-terminated names. */
module StringTables {
  import opened Wrappers
  import opened Bytes

  /** A name a string table can hold: not empty, no NUL, every character
      one byte wide. */
  predicate TableName(w: string)
  {
    |w| > 0 && forall k :: 0 <= k < |w| ==> 0 < w[k] as int < 256
  }

  /** The bytes of a name, one per character. */
  function NameBytes(w: string): (r: seq<byte>)
    requires forall k :: 0 <= k < |w| ==> w[k] as int < 256
    ensures |r| == |w| && forall k :: 0 <= k < |w| ==> r[k] == w[k] as int
  {
    seq(|w|, k requires 0 <= k < |w| => w[k] as int)
  }

  /** A table's names, each followed by its NUL terminator. */
  function Names(ws: seq<string>): (r: seq<byte>)
    requires forall j :: 0 <= j < |ws| ==> TableName(ws[j])
  {
    if ws == [] then []
    else
      assert TableName(ws[0]);
      NameBytes(ws[0]) + [0] + Names(ws[1..])
  }

  /** The loop of `ReadFrom` from byte `i` on, with the names and the
      builder so far: a NUL ends the builder's name, or the table when the
      builder is empty; any other byte is appended as the character of the
      same code. Running out of bytes is the reader's EndOfStreamException,
      None here; otherwise the names and the number of bytes consumed. */
  function Scan(s: seq<byte>, i: nat, names: seq<string>, builder: string): Option<(seq<string>, nat)>
    requires i <= |s|
    decreases |s| - i
  {
    if i == |s| then None
    else if s[i] == 0 then
      if builder == [] then Some((names, i + 1)) else Scan(s, i + 1, names + [builder], [])
    else Scan(s, i + 1, names, builder + [s[i] as char])
  }

  /** A scan that ends consumes at least one byte, stays within the
      stream, and stops just after a NUL. */
  lemma {:induction false} ScanConsumed(s: seq<byte>, i: nat, names: seq<string>, builder: string)
    requires i <= |s|
    ensures var r := Scan(s, i, names, builder);
      r.Some? ==> i < r.value.1 <= |s| && s[r.value.1 - 1] == 0
    decreases |s| - i
  {
    if i < |s| {
      if s[i] == 0 {
        if builder != [] {
          ScanConsumed(s, i + 1, names + [builder], []);
        }
      } else {
        ScanConsumed(s, i + 1, names, builder + [s[i] as char]);
      }
    }
  }

  /** `ReadFrom`: the first byte is skipped unread, whatever it is. */
  function ReadFromOf(s: seq<byte>): (r: Option<(seq<string>, nat)>)
    ensures r.Some? ==> 1 < r.value.1 <= |s| && s[r.value.1 - 1] == 0
  {
    if s == [] then None else ScanConsumed(s, 1, [], []); Scan(s, 1, [], [])
  }

  /** `StringTableSection.ReadFrom` over the stream `s`: the names read and
      how many bytes were consumed. */
  method ReadFrom(s: seq<byte>) returns (r: Option<(seq<string>, nat)>)
    ensures r == ReadFromOf(s)
  {
    if |s| == 0 {
      return None;
    }
    var position := 1;
    var names: seq<string> := [];
    var builder: string := "";
    while true
      invariant position <= |s|
      invariant ReadFromOf(s) == Scan(s, position, names, builder)
      decreases |s| - position
    {
      if position == |s| {
        return None;
      }
      var b := s[position];
      position := position + 1;
      if b == 0 {
        if |builder| == 0 {
          break;
        }
        names := names + [builder];
        builder := "";
        continue;
      }
      builder := builder + [b as char];
    }
    return Some((names, position));
  }

  /** Every name read is a table name: the loop only keeps a builder that
      is not empty, and never appends a NUL to it. */
  lemma {:induction false} ScanKeepsNames(s: seq<byte>, i: nat, names: seq<string>, builder: string)
    requires i <= |s|
    requires forall j :: 0 <= j < |names| ==> TableName(names[j])
    requires forall k :: 0 <= k < |builder| ==> 0 < builder[k] as int < 256
    ensures var r := Scan(s, i, names, builder);
      r.Some? ==> forall j :: 0 <= j < |r.value.0| ==> TableName(r.value.0[j])
    decreases |s| - i
  {
    if i < |s| {
      if s[i] == 0 {
        if builder != [] {
          ScanKeepsNames(s, i + 1, names + [builder], []);
        }
      } else {
        ScanKeepsNames(s, i + 1, names, builder + [s[i] as char]);
      }
    }
  }

  lemma ReadNamesAreTableNames(s: seq<byte>)
    ensures var r := ReadFromOf(s);
      r.Some? ==> forall j :: 0 <= j < |r.value.0| ==> TableName(r.value.0[j])
  {
    if s != [] {
      ScanKeepsNames(s, 1, [], []);
    }
  }

  /** The bytes of a name go into the builder. */
  lemma {:induction false} ScanName(s: seq<byte>, i: nat, w: string, names: seq<string>, builder: string)
    requires forall k :: 0 <= k < |w| ==> 0 < w[k] as int < 256
    requires i + |w| <= |s| && s[i..i + |w|] == NameBytes(w)
    ensures Scan(s, i, names, builder) == Scan(s, i + |w|, names, builder + w)
    decreases |w|
  {
    if w != [] {
      assert s[i] == w[0] as int && s[i] as char == w[0] && s[i] != 0;
      assert Scan(s, i, names, builder) == Scan(s, i + 1, names, builder + [w[0]]);
      assert s[i + 1..i + 1 + |w[1..]|] == NameBytes(w[1..]);
      ScanName(s, i + 1, w[1..], names, builder + [w[0]]);
      assert builder + [w[0]] + w[1..] == builder + w;
    } else {
      assert builder + w == builder;
    }
  }

  /** A name and its terminator add the name to the list. */
  lemma ScanTerminatedName(s: seq<byte>, i: nat, w: string, names: seq<string>)
    requires TableName(w)
    requires i + |w| < |s| && s[i..i + |w|] == NameBytes(w) && s[i + |w|] == 0
    ensures Scan(s, i, names, []) == Scan(s, i + |w| + 1, names + [w], [])
  {
    ScanName(s, i, w, names, []);
    assert [] + w == w;
  }

  /** The bytes of a table: the first name, its NUL, and the rest. */
  lemma NamesFirst(ws: seq<string>)
    requires ws != [] && forall j :: 0 <= j < |ws| ==> TableName(ws[j])
    ensures TableName(ws[0])
    ensures Names(ws) == NameBytes(ws[0]) + [0] + Names(ws[1..])
    ensures |Names(ws)| == |ws[0]| + 1 + |Names(ws[1..])|
  {
  }

  /** Where a stretch of `s` holds `a`, a NUL and `b`, each part is found at its offset. */
  lemma SplitTerminated(s: seq<byte>, i: nat, a: seq<byte>, b: seq<byte>)
    requires i + |a| + 1 + |b| <= |s| && s[i..i + |a| + 1 + |b|] == a + [0] + b
    ensures s[i..i + |a|] == a && s[i + |a|] == 0 && s[i + |a| + 1..i + |a| + 1 + |b|] == b
  {
    var t := s[i..i + |a| + 1 + |b|];
    assert s[i..i + |a|] == t[..|a|];
    assert s[i + |a|] == t[|a|];
    assert s[i + |a| + 1..i + |a| + 1 + |b|] == t[|a| + 1..];
  }

  /** The same for a suffix of `s`. */
  lemma SplitTerminatedSuffix(s: seq<byte>, i: nat, a: seq<byte>, b: seq<byte>)
    requires i <= |s| && s[i..] == a + [0] + b
    ensures i + |a| < |s| && s[i..i + |a|] == a && s[i + |a|] == 0 && s[i + |a| + 1..] == b
  {
    assert s[i..i + |a|] == s[i..][..|a|];
    assert s[i + |a|] == s[i..][|a|];
    assert s[i + |a| + 1..] == s[i..][|a| + 1..];
  }

  /** The names of a table followed by a NUL are read back in order. */
  lemma {:induction false} ScanNames(s: seq<byte>, i: nat, ws: seq<string>, names: seq<string>)
    requires forall j :: 0 <= j < |ws| ==> TableName(ws[j])
    requires i + |Names(ws)| < |s| && s[i..i + |Names(ws)|] == Names(ws) && s[i + |Names(ws)|] == 0
    ensures Scan(s, i, names, []) == Some((names + ws, i + |Names(ws)| + 1))
    decreases ws
  {
    if ws != [] {
      NamesFirst(ws);
      var w, tail := ws[0], Names(ws[1..]);
      SplitTerminated(s, i, NameBytes(w), tail);
      ScanTerminatedName(s, i, w, names);
      var j := i + |w| + 1;
      assert Scan(s, i, names, []) == Scan(s, j, names + [w], []);
      ScanNames(s, j, ws[1..], names + [w]);
      assert names + [w] + ws[1..] == names + ws;
    } else {
      assert names + ws == names;
    }
  }

  /** Names with no final NUL run into the end of the stream. */
  lemma {:induction false} ScanToEnd(s: seq<byte>, i: nat, ws: seq<string>, names: seq<string>)
    requires forall j :: 0 <= j < |ws| ==> TableName(ws[j])
    requires i <= |s| && s[i..] == Names(ws)
    ensures Scan(s, i, names, []).None?
    decreases ws
  {
    if ws != [] {
      var j := i + |ws[0]| + 1;
      ScanFirstOfSuffix(s, i, ws, names);
      ScanToEnd(s, j, ws[1..], names + [ws[0]]);
    } else {
      assert |s[i..]| == 0;
    }
  }

  /** One step of `ScanToEnd`: the first name is read and the rest of the
      suffix holds the other names. */
  lemma ScanFirstOfSuffix(s: seq<byte>, i: nat, ws: seq<string>, names: seq<string>)
    requires ws != [] && forall j :: 0 <= j < |ws| ==> TableName(ws[j])
    requires i <= |s| && s[i..] == Names(ws)
    ensures var j := i + |ws[0]| + 1;
      j <= |s| && s[j..] == Names(ws[1..]) && (forall k :: 0 <= k < |ws[1..]| ==> TableName(ws[1..][k]))
      && Scan(s, i, names, []) == Scan(s, j, names + [ws[0]], [])
  {
    NamesFirst(ws);
    SplitTerminatedSuffix(s, i, NameBytes(ws[0]), Names(ws[1..]));
    ScanTerminatedName(s, i, ws[0], names);
  }

  /** Writing a NUL, the names each with its terminator and a final NUL,
      then reading, gives the names back in order; whatever follows is
      left unread. */
  lemma TableRoundTrip(ws: seq<string>, rest: seq<byte>)
    requires forall j :: 0 <= j < |ws| ==> TableName(ws[j])
    ensures ReadFromOf([0] + Names(ws) + [0] + rest) == Some((ws, |Names(ws)| + 2))
  {
    var s := [0] + Names(ws) + [0] + rest;
    assert s[1..1 + |Names(ws)|] == Names(ws) && s[1 + |Names(ws)|] == 0;
    ScanNames(s, 1, ws, []);
    assert [] + ws == ws;
  }

  /** A table that runs out before its empty name is a read error. */
  lemma UnterminatedTable(ws: seq<string>)
    requires forall j :: 0 <= j < |ws| ==> TableName(ws[j])
    ensures ReadFromOf([0] + Names(ws)).None?
  {
    var s := [0] + Names(ws);
    assert s[1..] == Names(ws);
    ScanToEnd(s, 1, ws, []);
  }

  /** The section-name table of a NASM object: 33 bytes by its section
      header, but the reader stops only at the empty name, one byte past
      the section (the padding that follows it is zero). */
  lemma SectionNameTable(rest: seq<byte>)
    ensures var ws := [".text", ".shstrtab", ".symtab", ".strtab"];
      1 + |Names(ws)| == 33 && ReadFromOf([0] + Names(ws) + [0] + rest) == Some((ws, 34))
  {
    var ws := [".text", ".shstrtab", ".symtab", ".strtab"];
    assert TableName(ws[0]) && TableName(ws[1]) && TableName(ws[2]) && TableName(ws[3]);
    assert forall j :: 0 <= j < |ws| ==> TableName(ws[j]);
    assert ws[1..][1..][1..][1..] == [];
    TableRoundTrip(ws, rest);
  }
}
