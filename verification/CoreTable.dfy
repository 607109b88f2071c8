/** The table of files in tests/11-coredump/parse-core.c, and the names of notes, spelled out:
    which contents a file has to have, and which names a note goes by. */
module CoreTable {
  import opened Hiding
  import opened Words
  import opened CoreNotes
  import opened CoreParser

  // ---------- the table of files ----------

  /** The hexadecimal digits are these 22 characters. */
  lemma HexDigits(c: Byte)
    ensures IsHexDigit(c) <==> c as char in "0123456789ABCDEFabcdef"
  {
    if c as char in "0123456789ABCDEFabcdef" {
      var i :| 0 <= i < 22 && "0123456789ABCDEFabcdef"[i] == c as char;
      HexDigitAt(i);
    }
    if IsHexDigit(c) {
      var i := if c < 0x40 then c - 0x30 else if c < 0x60 then c - 0x41 + 10 else c - 0x61 + 16;
      HexDigitAt(i);
      assert "0123456789ABCDEFabcdef"[i] in "0123456789ABCDEFabcdef";
    }
  }

  lemma HexDigitAt(i: nat)
    requires i < 22
    ensures "0123456789ABCDEFabcdef"[i] as int
            == if i < 10 then 0x30 + i else if i < 16 then 0x41 + i - 10 else 0x61 + i - 16
  {
  }

  lemma Digits(c: Byte)
    ensures IsDigit(c) <==> '0' <= c as char <= '9'
  {
  }

  /** The bytes are the characters of the string. */
  ghost predicate Is(b: Bytes, s: string) {
    |b| == |s| && forall i {:trigger s[i]} :: 0 <= i < |s| ==> b[i] as int == s[i] as int
  }

  ghost predicate HasSize(file: Bytes, name: string, desc: Bytes, size: nat) {
    Is(file, name) ==> |desc| == size
  }

  /** 0x, sixteen hexadecimal digits and one byte more. */
  ghost predicate IsHexText(desc: Bytes) {
    && |desc| == 19 && desc[0] as char == '0' && desc[1] as char == 'x'
    && forall i {:trigger desc[i]} :: 2 <= i < 18 ==> desc[i] as char in "0123456789ABCDEFabcdef"
  }

  ghost predicate HasHex(file: Bytes, name: string, desc: Bytes) {
    Is(file, name) ==> IsHexText(desc)
  }

  lemma HexText(desc: Bytes)
    ensures IsHexNote(desc) <==> IsHexText(desc)
  {
    forall c: Byte ensures IsHexDigit(c) <==> c as char in "0123456789ABCDEFabcdef" { HexDigits(c); }
  }

  /** Length, first and seventh character: enough to tell the names of the table apart. */
  function Key(s: string): int {
    |s| * 0x10000 + (if s == "" then 0 else s[0] as int * 0x100) + if |s| > 6 then s[6] as int else 0
  }

  function Keys(): seq<int> {
    [0x47200, 0x46600, 0x46c00, 0x46400, 0xb6474, 0x36d00, 0x77331, 0xc7331, 0x77332, 0xc7332,
     0xa656d, 0xc6573, 0x96d6e, 0x9696e, 0x9776e, 0x86466, 0xd706d, 0x96f2d, 0x36e00]
  }

  lemma KeyAt(k: nat)
    requires k < 19
    ensures |Checks()| == 19 && Key(Checks()[k].file) == Keys()[k]
  {
  }

  lemma KeysDiffer(j: nat, k: nat)
    requires j < k < 19
    ensures Keys()[j] != Keys()[k]
  {
  }

  /** The entries of the table are for different files. */
  lemma NamesDiffer(j: nat, k: nat)
    requires j < k < |Checks()|
    ensures FileName(j) != FileName(k)
  {
    KeyAt(j);
    KeyAt(k);
    KeysDiffer(j, k);
    if FileName(j) == FileName(k) { SameName(j, k); }
  }

  lemma SameName(j: nat, k: nat)
    requires j < |Checks()| && k < |Checks()| && FileName(j) == FileName(k)
    ensures Checks()[j].file == Checks()[k].file
  {
    var a, b := Checks()[j].file, Checks()[k].file;
    forall i | 0 <= i < |a| ensures a[i] == b[i] { assert FileName(j)[i] == FileName(k)[i]; }
  }

  lemma IsName(file: Bytes, k: nat)
    requires k < |Checks()|
    ensures Is(file, Checks()[k].file) <==> file == FileName(k)
  {
    var s, f := Checks()[k].file, FileName(k);
    assert forall i {:trigger s[i]} :: 0 <= i < |s| ==> f[i] == s[i] as int;
    if Is(file, s) { assert forall i :: 0 <= i < |s| ==> file[i] == s[i] as int; }
  }

  /** What entry k of the table says of the file.  The details come with `Look`. */
  ghost predicate Entry(k: nat, file: Bytes, desc: Bytes) {
    forall n: int {:trigger Look(n)} :: Look(n) ==>
      k < |Checks()| && (Is(file, Checks()[k].file) ==> Passes(k, desc))
  }

  lemma FileOkAt(file: Bytes, desc: Bytes)
    ensures FileOk(file, desc) <==> forall k: nat {:trigger Entry(k, file, desc)} :: k < 19 ==> Entry(k, file, desc)
  {
    assert Look(0) && |Checks()| == 19;
    forall k | 0 <= k < |Checks()| ensures IsCheckFor(k, file) <==> Is(file, Checks()[k].file) {
      IsName(file, k);
      if file == FileName(k) {
        forall j | 0 <= j < k ensures FileName(j) != file { NamesDiffer(j, k); }
      }
    }
    if FileOk(file, desc) {
      forall k: nat | k < 19 ensures Entry(k, file, desc) {
        assert IsCheckFor(k, file) <==> Is(file, Checks()[k].file);
      }
    }
    if forall k: nat {:trigger Entry(k, file, desc)} :: k < 19 ==> Entry(k, file, desc) {
      forall k: int | IsCheckFor(k, file) ensures Passes(k, desc) { assert Entry(k, file, desc); }
    }
  }

  lemma EntrySized(k: nat, name: string, size: nat, file: Bytes, desc: Bytes)
    requires k < |Checks()| && Checks()[k] == Check(name, size, false) && size != 0
    ensures Entry(k, file, desc) <==> HasSize(file, name, desc, size)
  {
    assert Look(0);
  }

  lemma EntryHex(k: nat, name: string, file: Bytes, desc: Bytes)
    requires k < |Checks()| && Checks()[k] == Check(name, 0, true)
    ensures Entry(k, file, desc) <==> HasHex(file, name, desc)
  {
    assert Look(0);
    HexText(desc);
  }

  /** The first ten files of the table, and what has to be in them. */
  ghost predicate FirstFiles(file: Bytes, desc: Bytes) {
    && HasSize(file, "regs", desc, 0x800) && HasSize(file, "fpcr", desc, 16)
    && HasHex(file, "lslr", desc) && HasHex(file, "decr", desc)
    && HasHex(file, "decr_status", desc) && HasSize(file, "mem", desc, 0x40000)
    && HasSize(file, "signal1", desc, 4) && HasHex(file, "signal1_type", desc)
    && HasSize(file, "signal2", desc, 4) && HasHex(file, "signal2_type", desc)
  }

  /** The other nine. */
  ghost predicate LastFiles(file: Bytes, desc: Bytes) {
    && HasHex(file, "event_mask", desc) && HasHex(file, "event_status", desc)
    && HasSize(file, "mbox_info", desc, 4) && HasSize(file, "ibox_info", desc, 4)
    && HasSize(file, "wbox_info", desc, 16) && HasSize(file, "dma_info", desc, 0x228)
    && HasSize(file, "proxydma_info", desc, 0x118) && HasHex(file, "object-id", desc)
    && HasHex(file, "npc", desc)
  }

  lemma FirstEntries(file: Bytes, desc: Bytes)
    ensures FirstFiles(file, desc) <==> forall k: nat {:trigger Entry(k, file, desc)} :: k < 10 ==> Entry(k, file, desc)
  {
    EntrySized(0, "regs", 0x800, file, desc);
    EntrySized(1, "fpcr", 16, file, desc);
    EntryHex(2, "lslr", file, desc);
    EntryHex(3, "decr", file, desc);
    EntryHex(4, "decr_status", file, desc);
    EntrySized(5, "mem", 0x40000, file, desc);
    EntrySized(6, "signal1", 4, file, desc);
    EntryHex(7, "signal1_type", file, desc);
    EntrySized(8, "signal2", 4, file, desc);
    EntryHex(9, "signal2_type", file, desc);
  }

  lemma LastEntries(file: Bytes, desc: Bytes)
    ensures LastFiles(file, desc)
            <==> forall k: nat {:trigger Entry(k, file, desc)} :: 10 <= k < 19 ==> Entry(k, file, desc)
  {
    EntryHex(10, "event_mask", file, desc);
    EntryHex(11, "event_status", file, desc);
    EntrySized(12, "mbox_info", 4, file, desc);
    EntrySized(13, "ibox_info", 4, file, desc);
    EntrySized(14, "wbox_info", 16, file, desc);
    EntrySized(15, "dma_info", 0x228, file, desc);
    EntrySized(16, "proxydma_info", 0x118, file, desc);
    EntryHex(17, "object-id", file, desc);
    EntryHex(18, "npc", file, desc);
  }

  /** A file passes exactly when its contents are as the table has it. */
  lemma FileTable(file: Bytes, desc: Bytes)
    ensures FileOk(file, desc) <==> FirstFiles(file, desc) && LastFiles(file, desc)
  {
    FileOkAt(file, desc);
    FirstEntries(file, desc);
    LastEntries(file, desc);
  }

  // ---------- names ----------

  lemma SelectedBytes(n: Note)
    ensures Selected(n) <==>
              n.kind == 1 && |n.name| >= 5 && n.name[0] as char == 'S' && n.name[1] as char == 'P'
              && n.name[2] as char == 'U' && n.name[3] as char == '/'
  {
    if |n.name| >= 5 {
      var q := n.name[..4];
      assert q[0] == n.name[0] && q[1] == n.name[1] && q[2] == n.name[2] && q[3] == n.name[3];
    }
  }

  /** A dump of name finds the note whose C string is name, and the one whose C string is name
      with SPU/ before it. */
  lemma NamedIff(n: Note, name: Bytes)
    requires Selected(n)
    ensures Named(n, name) <==> Text(n.name) == name || Text(n.name) == [0x53, 0x50, 0x55, 0x2f] + name
  {
    SelectedText(n);
    var t := Text(n.name);
    assert t == t[..4] + t[4..];
  }

  /** The name SPU/mem goes by mem and by SPU/mem. */
  lemma MemNamed(n: Note)
    requires n.kind == 1 && n.name == [0x53, 0x50, 0x55, 0x2f, 0x6d, 0x65, 0x6d, 0]
    ensures Selected(n) && Named(n, [0x6d, 0x65, 0x6d]) && Named(n, [0x53, 0x50, 0x55, 0x2f, 0x6d, 0x65, 0x6d])
  {
    SelectedBytes(n);
    var t: Bytes := [0x53, 0x50, 0x55, 0x2f, 0x6d, 0x65, 0x6d];
    TextIs(n.name, t);
    assert t == [0x53, 0x50, 0x55, 0x2f] + [0x6d, 0x65, 0x6d];
    NamedIff(n, [0x6d, 0x65, 0x6d]);
  }

  lemma {:induction false} TextIs(b: Bytes, t: Bytes)
    requires |t| < |b| && b[..|t|] == t && b[|t|] == 0 && forall i :: 0 <= i < |t| ==> b[i] != 0
    ensures Text(b) == t
    decreases |t|
  {
    if t != [] {
      assert b[0] == b[..|t|][0];
      assert b[1..][..|t| - 1] == t[1..];
      TextIs(b[1..], t[1..]);
    }
  }
}
