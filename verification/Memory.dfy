/** The byte memories of the Y86-64 tools: `get_byte_val`, `get_word_val`, `set_word_val`, and the
    register file, which is a 128-byte memory of its own. */
module Memory {
  import opened Words

  datatype Option<+T> = None | Some(value: T)

  type Mem = seq<Byte>

  function GetByte(m: Mem, pos: int): Option<Byte> {
    if pos < 0 || pos >= |m| then None else Some(m[pos])
  }

  function GetWord(m: Mem, pos: int): Option<Word> {
    if pos < 0 || pos + 8 > |m| then None else Some(WordOf(m[pos..pos + 8]))
  }

  function SetWord(m: Mem, pos: int, val: Word): (r: Option<Mem>)
    ensures r.Some? ==> |r.value| == |m|
  {
    if pos < 0 || pos + 8 > |m| then None
    else Some(m[..pos] + LowBytes(val, 8) + m[pos + 8..])
  }

  /** A stored word reads back; the store fails exactly where the load does. */
  lemma GetAfterSet(m: Mem, pos: int, val: Word)
    ensures SetWord(m, pos, val).Some? <==> GetWord(m, pos).Some?
    ensures SetWord(m, pos, val).Some? ==> GetWord(SetWord(m, pos, val).value, pos) == Some(val)
  {
    var r := SetWord(m, pos, val);
    if r.Some? {
      hide LowBytes, WordOf;
      assert r.value[pos..pos + 8] == LowBytes(val, 8);
      WordRoundTrip(val);
    }
  }

  /** A store leaves every word that does not overlap it. */
  lemma GetOtherAfterSet(m: Mem, pos: int, val: Word, other: int)
    requires SetWord(m, pos, val).Some?
    requires other + 8 <= pos || pos + 8 <= other
    ensures GetWord(SetWord(m, pos, val).value, other) == GetWord(m, other)
  {
    var r := SetWord(m, pos, val).value;
    var bytes := LowBytes(val, 8);
    assert r == m[..pos] + bytes + m[pos + 8..];
    hide SetWord, LowBytes, WordOf;
    if 0 <= other && other + 8 <= |m| {
      forall k | other <= k < other + 8
        ensures r[k] == m[k]
      {
      }
      assert r[other..other + 8] == m[other..other + 8];
    }
  }

  // ---------- the register file ----------

  const REG_RSP: Nibble := 4
  const REG_NONE: Nibble := 15

  type RegFile = m: Mem | |m| == 128 witness seq(128, _ => 0)

  predicate RegValid(id: Nibble) { id < REG_NONE }

  function GetReg(r: RegFile, id: Nibble): Word {
    if id >= REG_NONE then 0
    else match GetWord(r, id * 8) case Some(v) => v case None => 0
  }

  function SetReg(r: RegFile, id: Nibble, val: Word): RegFile {
    if id < REG_NONE then
      match SetWord(r, id * 8, val) case Some(r') => r' case None => r
    else r
  }

  /** The register file is a map from the fifteen register ids to words. */
  lemma RegReadWrite(r: RegFile, id: Nibble, val: Word, other: Nibble)
    ensures GetReg(SetReg(r, id, val), other) ==
            if id == other && RegValid(id) then val else GetReg(r, other)
  {
    if RegValid(id) {
      GetAfterSet(r, id * 8, val);
      if RegValid(other) && other != id {
        GetOtherAfterSet(r, id * 8, val, other * 8);
      }
    }
  }

  // ---------- the loops over byte arrays ----------

  method GetWordVal(m: array<Byte>, pos: int) returns (ok: bool, val: Word)
    ensures ok <==> GetWord(m[..], pos).Some?
    ensures ok ==> Some(val) == GetWord(m[..], pos)
  {
    val := 0;
    if pos < 0 || pos + 8 > m.Length {
      return false, val;
    }
    var sum, weight := 0, 1;
    for i := 0 to 8
      invariant sum + weight * FromBytes(m[pos + i..pos + 8]) == FromBytes(m[pos..pos + 8])
    {
      FromBytesSplit(m[pos + i..pos + 8]);
      assert m[pos + i..pos + 8][1..] == m[pos + i + 1..pos + 8];
      FromBytesStep(sum, weight, m[pos + i], FromBytes(m[pos + i + 1..pos + 8]));
      sum := sum + weight * m[pos + i];
      weight := weight * 256;
    }
    val := Wrap(sum);
    ok := true;
  }

  lemma FromBytesSplit(s: seq<Byte>)
    requires s != []
    ensures FromBytes(s) == s[0] + 256 * FromBytes(s[1..])
  {
  }

  lemma FromBytesStep(sum: int, weight: int, b: int, rest: int)
    ensures sum + weight * (b + 256 * rest) == (sum + weight * b) + (weight * 256) * rest
  {
  }

  method SetWordVal(m: array<Byte>, pos: int, val: Word) returns (ok: bool)
    modifies m
    ensures ok <==> SetWord(old(m[..]), pos, val).Some?
    ensures m[..] == if ok then SetWord(old(m[..]), pos, val).value else old(m[..])
  {
    if pos < 0 || pos + 8 > m.Length {
      return false;
    }
    var rest: int := val;
    ghost var bytes := LowBytes(val, 8);
    for i := 0 to 8
      invariant forall k :: 0 <= k < i ==> m[pos + k] == bytes[k]
      invariant forall k :: 0 <= k < m.Length && !(pos <= k < pos + i) ==> m[k] == old(m[k])
      invariant LowBytes(rest, 8 - i) == bytes[i..]
    {
      LowBytesStep(rest, 8 - i);
      assert bytes[i..][0] == bytes[i] && bytes[i..][1..] == bytes[i + 1..];
      m[pos + i] := rest % 256;
      rest := rest / 256;
    }
    hide LowBytes;
    assert m[..] == old(m[..pos]) + bytes + old(m[pos + 8..]);
    ok := true;
  }

  lemma LowBytesStep(v: int, n: nat)
    requires n > 0
    ensures LowBytes(v, n)[0] == v % 256 && LowBytes(v, n)[1..] == LowBytes(v / 256, n - 1)
  {
  }

  method GetByteVal(m: array<Byte>, pos: int) returns (ok: bool, b: Byte)
    ensures ok <==> GetByte(m[..], pos).Some?
    ensures ok ==> Some(b) == GetByte(m[..], pos)
  {
    if pos < 0 || pos >= m.Length {
      return false, 0;
    }
    return true, m[pos];
  }

  method GetRegVal(r: array<Byte>, id: Nibble) returns (val: Word)
    requires r.Length == 128
    ensures val == GetReg(r[..], id)
  {
    val := 0;
    if id >= REG_NONE {
      return;
    }
    var ok, v := GetWordVal(r, id * 8);
    val := v;
  }

  method SetRegVal(r: array<Byte>, id: Nibble, val: Word)
    requires r.Length == 128
    modifies r
    ensures r[..] == SetReg(old(r[..]), id, val)
  {
    if id < REG_NONE {
      var ok := SetWordVal(r, id * 8, val);
    }
  }
}
