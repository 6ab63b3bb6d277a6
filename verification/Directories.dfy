/** Directories (fs.c): the bytes of a directory file stand for a finite map from names, cut to
    DIRSIZ characters, to inode numbers. */
module Directories {
  import opened Blocks
  import opened FileLayout

  const DIRSIZ := 14
  const DIRENT := 16

  /** A C string without its terminator, and the part of it that directories see. */
  ghost predicate CString(name: seq<Byte>) {
    forall i :: 0 <= i < |name| ==> name[i] != 0
  }

  function Trunc(name: seq<Byte>): (r: seq<Byte>)
    ensures |r| <= DIRSIZ
  {
    if |name| <= DIRSIZ then name else name[..DIRSIZ]
  }

  /** The 14-byte name field: truncated, or padded with zeroes. */
  function Field(name: seq<Byte>): (r: seq<Byte>)
    ensures |r| == DIRSIZ
  {
    Trunc(name) + seq(DIRSIZ - |Trunc(name)|, _ => 0)
  }

  /** The name a field holds: everything before its first zero. */
  function Canon(field: seq<Byte>): (r: seq<Byte>)
    ensures r <= field && CString(r) && (|r| < |field| ==> field[|r|] == 0)
  {
    if field == [] || field[0] == 0 then [] else
      var rest := Canon(field[1..]);
      [field[0]] + rest
  }

  /** Being the part before the first zero determines it. */
  lemma CanonIs(field: seq<Byte>, r: seq<Byte>)
    requires r <= field && CString(r) && (|r| < |field| ==> field[|r|] == 0)
    ensures Canon(field) == r
  {
    var c := Canon(field);
    assert |c| == |r|;
    assert c == field[..|c|] && r == field[..|r|];
  }

  lemma CanonField(name: seq<Byte>)
    requires CString(name)
    ensures Canon(Field(name)) == Trunc(name)
  {
    CanonIs(Field(name), Trunc(name));
  }

  /** namecmp: strncmp over DIRSIZ characters. */
  method Namecmp(s: seq<Byte>, field: seq<Byte>) returns (same: bool)
    requires CString(s) && |field| == DIRSIZ
    ensures same <==> Trunc(s) == Canon(field)
  {
    var i := 0;
    while i < DIRSIZ && i < |s| && s[i] == field[i]
      invariant 0 <= i <= DIRSIZ && i <= |s| && s[..i] == field[..i]
    {
      i := i + 1;
    }
    var c := Canon(field);
    if i == DIRSIZ {
      CanonIs(field, field);
      assert Trunc(s) == s[..14] == field;
      return true;
    }
    same := (if i == |s| then 0 else s[i]) == field[i];
    if i == |s| {
      if field[i] == 0 { CanonIs(field, s); } else { assert Canon(field) != s; }
    } else {
      assert Trunc(s)[i] == s[i];
    }
  }

  // ----- entries -----

  function Slots(bytes: seq<Byte>): nat {
    |bytes| / DIRENT
  }

  function Inum(bytes: seq<Byte>, k: nat): nat
    requires k < Slots(bytes)
  {
    bytes[16 * k] + 256 * (bytes[16 * k + 1] as int)
  }

  function NameField(bytes: seq<Byte>, k: nat): (r: seq<Byte>)
    requires k < Slots(bytes)
    ensures |r| == DIRSIZ
  {
    bytes[16 * k + 2..16 * k + 16]
  }

  function NameAt(bytes: seq<Byte>, k: nat): seq<Byte>
    requires k < Slots(bytes)
  {
    Canon(NameField(bytes, k))
  }

  predicate Used(bytes: seq<Byte>, k: nat)
    requires k < Slots(bytes)
  {
    Inum(bytes, k) != 0
  }

  /** Whole entries, and no name twice. */
  ghost predicate DirOk(bytes: seq<Byte>) {
    && |bytes| % DIRENT == 0
    && forall a, b :: 0 <= a < b < Slots(bytes) && Used(bytes, a) && Used(bytes, b) ==> NameAt(bytes, a) != NameAt(bytes, b)
  }

  /** Slot k maps name. */
  ghost predicate Maps(bytes: seq<Byte>, k: nat, name: seq<Byte>)
    requires k < Slots(bytes)
  {
    Used(bytes, k) && NameAt(bytes, k) == name
  }

  /** The map held by the first n slots. */
  ghost function AsMap(bytes: seq<Byte>, n: nat): (m: map<seq<Byte>, nat>)
    requires n <= Slots(bytes)
  {
    if n == 0 then map[]
    else if Used(bytes, n - 1) then AsMap(bytes, n - 1)[NameAt(bytes, n - 1) := Inum(bytes, n - 1)]
    else AsMap(bytes, n - 1)
  }

  ghost function Contents(bytes: seq<Byte>): map<seq<Byte>, nat> {
    AsMap(bytes, Slots(bytes))
  }

  /** The map has exactly the names of used slots, with their inode numbers. */
  lemma {:induction false} AsMapIs(bytes: seq<Byte>, n: nat)
    requires DirOk(bytes) && n <= Slots(bytes)
    ensures forall name :: name in AsMap(bytes, n) <==> exists k :: 0 <= k < n && Maps(bytes, k, name)
    ensures forall k :: 0 <= k < n && Used(bytes, k) ==>
              NameAt(bytes, k) in AsMap(bytes, n) && AsMap(bytes, n)[NameAt(bytes, k)] == Inum(bytes, k)
  {
    hide NameAt, Inum;
    if n == 0 {
    } else {
      AsMapIs(bytes, n - 1);
      var m, m0 := AsMap(bytes, n), AsMap(bytes, n - 1);
      forall name ensures name in m <==> exists k :: 0 <= k < n && Maps(bytes, k, name) {
        if name in m0 {
          var k :| 0 <= k < n - 1 && Maps(bytes, k, name);
        }
        if Used(bytes, n - 1) { assert Maps(bytes, n - 1, NameAt(bytes, n - 1)); }
      }
    }
  }

  /** A name is mapped at no slot or exactly one. */
  lemma ContentsAt(bytes: seq<Byte>, k: nat, name: seq<Byte>)
    requires DirOk(bytes) && k < Slots(bytes) && Maps(bytes, k, name)
    ensures name in Contents(bytes) && Contents(bytes)[name] == Inum(bytes, k)
  {
    AsMapIs(bytes, Slots(bytes));
  }

  lemma ContentsLacks(bytes: seq<Byte>, name: seq<Byte>)
    requires DirOk(bytes) && forall k :: 0 <= k < Slots(bytes) ==> !Maps(bytes, k, name)
    ensures name !in Contents(bytes)
  {
    AsMapIs(bytes, Slots(bytes));
  }

  // ----- changing one entry -----

  /** The 16 bytes of a directory entry. */
  function Dirent(inum: nat, field: seq<Byte>): (r: seq<Byte>)
    requires inum < 65536 && |field| == DIRSIZ
    ensures |r| == DIRENT
  {
    [inum % 256, inum / 256] + field
  }

  /** Slot k is overwritten, or added at the end. */
  function PutSlot(bytes: seq<Byte>, k: nat, entry: seq<Byte>): (r: seq<Byte>)
    requires |bytes| % DIRENT == 0 && k <= Slots(bytes) && |entry| == DIRENT
    ensures |r| % DIRENT == 0 && Slots(r) == if k == Slots(bytes) then k + 1 else Slots(bytes)
  {
    bytes[..16 * k] + entry + if k == Slots(bytes) then [] else bytes[16 * k + 16..]
  }

  lemma PutSlotSame(bytes: seq<Byte>, k: nat, inum: nat, field: seq<Byte>)
    requires |bytes| % DIRENT == 0 && k <= Slots(bytes) && inum < 65536 && |field| == DIRSIZ
    ensures var r := PutSlot(bytes, k, Dirent(inum, field)); Inum(r, k) == inum && NameField(r, k) == field
  {
    var r := PutSlot(bytes, k, Dirent(inum, field));
    assert r[16 * k..16 * k + 16] == Dirent(inum, field);
    assert r[16 * k] == Dirent(inum, field)[0] && r[16 * k + 1] == Dirent(inum, field)[1];
    assert NameField(r, k) == Dirent(inum, field)[2..];
  }

  lemma PutSlotOther(bytes: seq<Byte>, k: nat, entry: seq<Byte>, j: nat)
    requires |bytes| % DIRENT == 0 && k <= Slots(bytes) && |entry| == DIRENT && j < Slots(bytes) && j != k
    ensures var r := PutSlot(bytes, k, entry); Inum(r, j) == Inum(bytes, j) && NameField(r, j) == NameField(bytes, j)
  {
    var r := PutSlot(bytes, k, entry);
    if j < k {
      assert forall i :: 0 <= i < 16 * k ==> r[i] == bytes[i];
    } else {
      assert forall i :: 16 * k + 16 <= i < |bytes| ==> r[i] == bytes[i];
    }
    assert NameField(r, j) == NameField(bytes, j);
  }

  lemma PutSlotMaps(bytes: seq<Byte>, k: nat, inum: nat, field: seq<Byte>, j: nat, name: seq<Byte>)
    requires |bytes| % DIRENT == 0 && k <= Slots(bytes) && inum < 65536 && |field| == DIRSIZ
    requires j < Slots(PutSlot(bytes, k, Dirent(inum, field)))
    ensures var r := PutSlot(bytes, k, Dirent(inum, field));
            && (j == k ==> Inum(r, j) == inum && (Maps(r, j, name) <==> inum != 0 && Canon(field) == name))
            && (j != k ==> Inum(r, j) == Inum(bytes, j) && (Maps(r, j, name) <==> Maps(bytes, j, name)))
  {
    hide Inum, NameField, PutSlot, Dirent, Canon;
    if j == k { PutSlotSame(bytes, k, inum, field); } else { PutSlotOther(bytes, k, Dirent(inum, field), j); }
  }

  /** Same answer for one name in two directories. */
  ghost predicate SameAnswer(m: map<seq<Byte>, nat>, m': map<seq<Byte>, nat>, name: seq<Byte>) {
    (name in m <==> name in m') && (name in m ==> m[name] == m'[name])
  }

  lemma OtherNameKept(bytes: seq<Byte>, r: seq<Byte>, k: nat, inum: nat, field: seq<Byte>, name: seq<Byte>)
    requires DirOk(bytes) && k <= Slots(bytes) && inum < 65536 && |field| == DIRSIZ
    requires r == PutSlot(bytes, k, Dirent(inum, field)) && DirOk(r)
    requires (k < Slots(bytes) ==> !Maps(bytes, k, name)) && !(inum != 0 && Canon(field) == name)
    ensures SameAnswer(Contents(bytes), Contents(r), name)
  {
    hide DirOk, Canon, PutSlot, Dirent, Contents, Maps, Inum;
    assert |bytes| % DIRENT == 0 by { DirWhole(bytes); }
    if j :| 0 <= j < Slots(bytes) && Maps(bytes, j, name) {
      SlotsAfter(bytes, k, Dirent(inum, field));
      PutSlotMaps(bytes, k, inum, field, j, name);
      ContentsAt(bytes, j, name);
      ContentsAt(r, j, name);
    } else {
      ContentsLacks(bytes, name);
      forall j | 0 <= j < Slots(r) ensures !Maps(r, j, name) {
        PutSlotMaps(bytes, k, inum, field, j, name);
        SlotsAfter(bytes, k, Dirent(inum, field));
      }
      ContentsLacks(r, name);
    }
  }

  lemma DirWhole(bytes: seq<Byte>)
    requires DirOk(bytes)
    ensures |bytes| % DIRENT == 0
  {
  }

  lemma SlotsAfter(bytes: seq<Byte>, k: nat, entry: seq<Byte>)
    requires |bytes| % DIRENT == 0 && k <= Slots(bytes) && |entry| == DIRENT
    ensures Slots(PutSlot(bytes, k, entry)) == if k == Slots(bytes) then k + 1 else Slots(bytes)
  {
  }

  /** No two slots map one name. */
  ghost predicate NoTwo(bytes: seq<Byte>, a: nat, b: nat)
    requires a < Slots(bytes) && b < Slots(bytes)
  {
    Used(bytes, a) && Used(bytes, b) ==> NameAt(bytes, a) != NameAt(bytes, b)
  }

  lemma PutNoTwo(bytes: seq<Byte>, k: nat, inum: nat, field: seq<Byte>, a: nat, b: nat)
    requires DirOk(bytes) && k <= Slots(bytes) && inum < 65536 && |field| == DIRSIZ
    requires inum != 0 ==> forall j :: 0 <= j < Slots(bytes) && j != k ==> !Maps(bytes, j, Canon(field))
    requires a < b < Slots(PutSlot(bytes, k, Dirent(inum, field)))
    ensures NoTwo(PutSlot(bytes, k, Dirent(inum, field)), a, b)
  {
    hide Canon, PutSlot, Dirent, Inum, NameAt;
    var r := PutSlot(bytes, k, Dirent(inum, field));
    SlotsAfter(bytes, k, Dirent(inum, field));
    PutSlotMaps(bytes, k, inum, field, a, NameAt(r, a));
    PutSlotMaps(bytes, k, inum, field, b, NameAt(r, a));
    PutSlotMaps(bytes, k, inum, field, b, NameAt(r, b));
  }

  lemma PutOk(bytes: seq<Byte>, k: nat, inum: nat, field: seq<Byte>)
    requires DirOk(bytes) && k <= Slots(bytes) && inum < 65536 && |field| == DIRSIZ
    requires inum != 0 ==> forall j :: 0 <= j < Slots(bytes) && j != k ==> !Maps(bytes, j, Canon(field))
    ensures DirOk(PutSlot(bytes, k, Dirent(inum, field)))
  {
    hide Canon, Maps, Dirent, NameAt, PutSlot, DirOk, NoTwo;
    DirWhole(bytes);
    var r := PutSlot(bytes, k, Dirent(inum, field));
    forall a, b | 0 <= a < b < Slots(r) ensures NoTwo(r, a, b) {
      PutNoTwo(bytes, k, inum, field, a, b);
    }
    DirIs(r);
  }

  lemma DirIs(bytes: seq<Byte>)
    requires |bytes| % DIRENT == 0
    requires forall a, b :: 0 <= a < b < Slots(bytes) ==> NoTwo(bytes, a, b)
    ensures DirOk(bytes)
  {
    hide NameAt, Inum;
    forall a, b | 0 <= a < b < Slots(bytes) && Used(bytes, a) && Used(bytes, b) ensures NameAt(bytes, a) != NameAt(bytes, b) {
      assert NoTwo(bytes, a, b);
    }
  }

  /** Writing an unused slot adds one name to the map. */
  lemma LinkKeeps(bytes: seq<Byte>, k: nat, inum: nat, name: seq<Byte>)
    requires DirOk(bytes) && k <= Slots(bytes) && 0 < inum < 65536 && CString(name)
    requires k < Slots(bytes) ==> !Used(bytes, k)
    requires Trunc(name) !in Contents(bytes)
    ensures var r := PutSlot(bytes, k, Dirent(inum, Field(name)));
            DirOk(r) && Contents(r) == Contents(bytes)[Trunc(name) := inum]
  {
    CanonField(name);
    hide Canon, PutSlot, Dirent, Contents, Field, Inum, NameAt;
    forall j | 0 <= j < Slots(bytes) ensures !Maps(bytes, j, Trunc(name)) {
      if Maps(bytes, j, Trunc(name)) { ContentsAt(bytes, j, Trunc(name)); }
    }
    PutOk(bytes, k, inum, Field(name));
    var r := PutSlot(bytes, k, Dirent(inum, Field(name)));
    SlotsAfter(bytes, k, Dirent(inum, Field(name)));
    PutSlotMaps(bytes, k, inum, Field(name), k, Trunc(name));
    ContentsAt(r, k, Trunc(name));
    forall n | n != Trunc(name) ensures SameAnswer(Contents(bytes), Contents(r), n) {
      OtherNameKept(bytes, r, k, inum, Field(name), n);
    }
    var m := Contents(bytes)[Trunc(name) := inum];
    forall n ensures SameAnswer(m, Contents(r), n) {
      if n != Trunc(name) { assert SameAnswer(Contents(bytes), Contents(r), n); }
    }
    SameMaps(m, Contents(r));
  }

  lemma SameMaps(m: map<seq<Byte>, nat>, m': map<seq<Byte>, nat>)
    requires forall n :: SameAnswer(m, m', n)
    ensures m == m'
  {
    assert forall n :: n in m <==> n in m' by {
      forall n ensures n in m <==> n in m' { assert SameAnswer(m, m', n); }
    }
    forall n | n in m ensures m[n] == m'[n] { assert SameAnswer(m, m', n); }
  }

  /** Zeroing a used slot removes its name. */
  lemma EraseKeeps(bytes: seq<Byte>, k: nat)
    requires DirOk(bytes) && k < Slots(bytes) && Used(bytes, k)
    ensures var r := PutSlot(bytes, k, Dirent(0, Field([])));
            DirOk(r) && Contents(r) == Contents(bytes) - {NameAt(bytes, k)}
  {
    hide Canon, PutSlot, Dirent, Contents, Field, Inum;
    PutOk(bytes, k, 0, Field([]));
    var r := PutSlot(bytes, k, Dirent(0, Field([])));
    SlotsAfter(bytes, k, Dirent(0, Field([])));
    var gone := NameAt(bytes, k);
    forall j | 0 <= j < Slots(r) ensures !Maps(r, j, gone) {
      PutSlotMaps(bytes, k, 0, Field([]), j, gone);
      if j != k { assert NoTwo(bytes, if j < k then j else k, if j < k then k else j); }
    }
    ContentsLacks(r, gone);
    forall n | n != gone ensures SameAnswer(Contents(bytes), Contents(r), n) {
      OtherNameKept(bytes, r, k, 0, Field([]), n);
    }
    var m := Contents(bytes) - {gone};
    forall n ensures SameAnswer(m, Contents(r), n) {
      if n != gone { assert SameAnswer(Contents(bytes), Contents(r), n); }
    }
    SameMaps(m, Contents(r));
  }

  // ----- the operations -----

  /** dirlookup: the inode number under a name and its byte offset, or 0. */
  method Dirlookup(bytes: seq<Byte>, name: seq<Byte>) returns (inum: nat, off: nat)
    requires DirOk(bytes) && CString(name)
    ensures inum == 0 <==> Trunc(name) !in Contents(bytes)
    ensures inum != 0 ==> inum == Contents(bytes)[Trunc(name)] && off % DIRENT == 0 && off < |bytes|
                          && Maps(bytes, off / DIRENT, Trunc(name))
  {
    hide DirOk, Contents, Canon, NameField, Inum, Trunc;
    DirWhole(bytes);
    var k := 0;
    while 16 * k < |bytes|
      invariant 0 <= k <= Slots(bytes)
      invariant forall j :: 0 <= j < k ==> !Maps(bytes, j, Trunc(name))
    {
      if Inum(bytes, k) != 0 {
        var same := Namecmp(name, NameField(bytes, k));
        if same {
          ContentsAt(bytes, k, Trunc(name));
          return Inum(bytes, k), 16 * k;
        }
      }
      k := k + 1;
    }
    ContentsLacks(bytes, Trunc(name));
    return 0, 0;
  }

  /** As many slots as the largest file has room for. */
  const MAXSLOTS := MAXFILE * BSIZE / DIRENT

  ghost predicate Taken(bytes: seq<Byte>, k: nat) {
    k < Slots(bytes) && Used(bytes, k)
  }

  /** How dirlink ends; Full is its panic. */
  datatype LinkEnd = Linked(bytes: seq<Byte>) | Exists | Full

  /** dirlink: a new name goes into the first unused slot, or to the end, if a file can be that large. */
  method Dirlink(bytes: seq<Byte>, name: seq<Byte>, inum: nat) returns (r: LinkEnd)
    requires DirOk(bytes) && CString(name) && 0 < inum < 65536
    ensures r.Exists? <==> Trunc(name) in Contents(bytes)
    ensures r.Full? <==> Trunc(name) !in Contents(bytes) && forall k :: 0 <= k < MAXSLOTS ==> Taken(bytes, k)
    ensures r.Linked? ==> DirOk(r.bytes) && Contents(r.bytes) == Contents(bytes)[Trunc(name) := inum]
    ensures r.Linked? ==> || |r.bytes| == |bytes|
                          || (|r.bytes| == |bytes| + DIRENT && forall k :: 0 <= k < Slots(bytes) ==> Used(bytes, k))
  {
    hide DirOk, Contents, Canon, Inum, Trunc, Field, Dirent, NameAt, Maps;
    DirWhole(bytes);
    var found, _ := Dirlookup(bytes, name);
    if found != 0 { return Exists; }
    var k := 0;
    while 16 * k < |bytes| && Inum(bytes, k) != 0
      invariant 0 <= k <= Slots(bytes)
      invariant forall j :: 0 <= j < k ==> Used(bytes, j)
    {
      k := k + 1;
    }
    if 16 * k + 16 > MAXFILE * BSIZE { return Full; }
    assert k < MAXSLOTS && !Taken(bytes, k);
    LinkKeeps(bytes, k, inum, name);
    return Linked(PutSlot(bytes, k, Dirent(inum, Field(name))));
  }

  /** The part of unlink that clears the entry found at off. */
  method Direrase(bytes: seq<Byte>, off: nat) returns (r: seq<Byte>)
    requires DirOk(bytes) && off % DIRENT == 0 && off < |bytes| && Used(bytes, off / DIRENT)
    ensures DirOk(r) && |r| == |bytes| && Contents(r) == Contents(bytes) - {NameAt(bytes, off / DIRENT)}
  {
    EraseKeeps(bytes, off / DIRENT);
    return PutSlot(bytes, off / DIRENT, Dirent(0, Field([])));
  }

  /** "." and "..", which mkdir puts into the first two slots. */
  const DOT: seq<Byte> := [46]
  const DOTS: seq<Byte> := [46, 46]

  ghost predicate StartsWithDots(bytes: seq<Byte>) {
    Slots(bytes) >= 2 && Maps(bytes, 0, DOT) && Maps(bytes, 1, DOTS)
  }

  /** isdirempty: nothing but the two dots. */
  method Isdirempty(bytes: seq<Byte>) returns (empty: bool)
    requires DirOk(bytes) && StartsWithDots(bytes)
    ensures empty <==> Contents(bytes).Keys == {DOT, DOTS}
  {
    hide DirOk, Contents, NameAt, Inum;
    DirWhole(bytes);
    ContentsAt(bytes, 0, DOT);
    ContentsAt(bytes, 1, DOTS);
    var k := 2;
    while 16 * k < |bytes|
      invariant 2 <= k <= Slots(bytes)
      invariant forall j :: 2 <= j < k ==> !Used(bytes, j)
    {
      if Inum(bytes, k) != 0 {
        ContentsAt(bytes, k, NameAt(bytes, k));
        ThirdName(bytes, k);
        return false;
      }
      k := k + 1;
    }
    forall n | n in Contents(bytes) ensures n == DOT || n == DOTS {
      if n != DOT && n != DOTS { ContentsLacks(bytes, n); }
    }
    return true;
  }

  lemma ThirdName(bytes: seq<Byte>, k: nat)
    requires DirOk(bytes) && StartsWithDots(bytes) && 2 <= k < Slots(bytes) && Used(bytes, k)
    ensures NameAt(bytes, k) != DOT && NameAt(bytes, k) != DOTS
  {
    assert NoTwo(bytes, 0, k) && NoTwo(bytes, 1, k);
  }
}
