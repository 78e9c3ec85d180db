/** The kernel's freestanding byte and string helpers. */
module Lib {
  import opened Machine

  /** The length of the C string stored in `text`. */
  function StrLen(text: seq<Byte>): (n: nat)
    requires 0 in text
    ensures n < |text| && text[n] == 0
    ensures forall i | 0 <= i < n :: text[i] != 0
  {
    if text[0] == 0 then 0 else 1 + StrLen(text[1..])
  }

  /** The bytes of the C string stored in `text`, without its terminator. */
  function CString(text: seq<Byte>): seq<Byte>
    requires 0 in text
  {
    text[..StrLen(text)]
  }

  method KStrlen(text: seq<Byte>) returns (len: nat)
    requires 0 in text
    ensures len == StrLen(text)
  {
    len := 0;
    while text[len] != 0
      invariant len <= StrLen(text)
      decreases |text| - len
    {
      len := len + 1;
    }
  }

  method KMemEqual(left: seq<Byte>, right: seq<Byte>, len: nat) returns (equal: bool)
    requires len <= |left| && len <= |right|
    ensures equal <==> left[..len] == right[..len]
  {
    for i := 0 to len
      invariant left[..i] == right[..i]
    {
      if left[i] != right[i] {
        assert left[..len][i] != right[..len][i];
        return false;
      }
    }
    return true;
  }

  method KMemset(dst: array<Byte>, at: nat, value: Byte, len: nat)
    requires at + len <= dst.Length
    modifies dst
    ensures dst[..] == Splice(old(dst[..]), at, seq(len, _ => value))
  {
    for i := 0 to len
      invariant dst[..] == Splice(old(dst[..]), at, seq(i, _ => value))
    {
      dst[at + i] := value;
    }
  }

  method KMemcpy(dst: array<Byte>, at: nat, src: seq<Byte>, len: nat)
    requires at + len <= dst.Length && len <= |src|
    modifies dst
    ensures dst[..] == Splice(old(dst[..]), at, src[..len])
  {
    for i := 0 to len
      invariant dst[..] == Splice(old(dst[..]), at, src[..i])
    {
      dst[at + i] := src[i];
    }
  }

  /** Copies only when the source fits; `None` stands for a null source pointer. */
  method KMemcpyChecked(dst: array<Byte>, at: nat, dstLen: nat, src: Option<seq<Byte>>, srcLen: nat)
    returns (ok: bool)
    requires at + dstLen <= dst.Length
    requires src.Some? ==> srcLen <= |src.value|
    modifies dst
    ensures ok <==> srcLen <= dstLen && (srcLen == 0 || src.Some?)
    ensures dst[..] == if ok && srcLen > 0 then Splice(old(dst[..]), at, src.value[..srcLen]) else old(dst[..])
  {
    if srcLen > dstLen {
      return false;
    }
    if srcLen == 0 {
      return true;
    }
    if src.None? {
      return false;
    }
    KMemcpy(dst, at, src.value, srcLen);
    return true;
  }
}
