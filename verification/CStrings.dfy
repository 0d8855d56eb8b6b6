/** C strings and the kernel's stringcopy. */
module CStrings {
  import opened Words

  /** A C string: the bytes before the first zero. */
  function CString(s: seq<Byte>): seq<Byte> {
    if s == [] || s[0] == 0 then [] else [s[0]] + CString(s[1..])
  }

  lemma {:induction false} CStringOf(nm: seq<Byte>, rest: seq<Byte>)
    requires forall k :: 0 <= k < |nm| ==> nm[k] != 0
    ensures CString(nm + [0] + rest) == nm
  {
    if nm == [] {
      assert nm + [0] + rest == [0] + rest;
    } else {
      assert (nm + [0] + rest)[1..] == nm[1..] + [0] + rest;
      CStringOf(nm[1..], rest);
    }
  }

  /** Bytes before any zero begin the string. */
  lemma {:induction false} CStringFrom(s: seq<Byte>, i: nat)
    requires i <= |s| && forall k :: 0 <= k < i ==> s[k] != 0
    ensures i <= |CString(s)| && CString(s)[..i] == s[..i]
  {
    if i > 0 {
      CStringFrom(s[1..], i - 1);
      assert s[..i] == [s[0]] + s[1..][..i - 1];
    }
  }

  lemma CStringEnds(s: seq<Byte>, i: nat)
    requires i < |s| && s[i] == 0 && forall k :: 0 <= k < i ==> s[k] != 0
    ensures CString(s) == s[..i]
  {
    assert s == s[..i] + [0] + s[i + 1..];
    CStringOf(s[..i], s[i + 1..]);
  }

  /** How many characters of a string are copied into n bytes. */
  function CopiedLength(n: int, nm: seq<Byte>): nat {
    if |nm| < n then |nm| else if n > 0 then n - 1 else 0
  }

  /**
   What a copy leaves in the target: the string, cut to leave room for one terminator, and what was there
   after that.
  */
  function Copied(t: seq<Byte>, nm: seq<Byte>, n: int): (r: seq<Byte>)
    requires 0 < |t| && n <= |t|
    ensures |r| == |t|
  {
    var k := CopiedLength(n, nm);
    nm[..k] + [0] + t[k + 1..]
  }

  /** k characters, a terminator and the old rest are the copy if the string ends there or no more fit. */
  lemma CopyDone(t0: seq<Byte>, t: seq<Byte>, source: seq<Byte>, k: nat, n: int)
    requires 0 < |t0| == |t| && n <= |t| && k < |t| && k < |source|
    requires forall j :: 0 <= j < |t| ==> t[j] == if j < k then source[j] else if j == k then 0 else t0[j]
    requires forall j :: 0 <= j < k ==> source[j] != 0
    requires if k < n - 1 then source[k] == 0 else k == if n > 0 then n - 1 else 0
    ensures t == Copied(t0, CString(source), n)
  {
    hide CString;
    CStringFrom(source, k);
    if k < n - 1 {
      CStringEnds(source, k);
    }
    PointwiseCopy(t0, t, source[..k]);
  }

  lemma PointwiseCopy(t0: seq<Byte>, t: seq<Byte>, s: seq<Byte>)
    requires |s| < |t0| == |t|
    requires forall j :: 0 <= j < |t| ==> t[j] == if j < |s| then s[j] else if j == |s| then 0 else t0[j]
    ensures t == s + [0] + t0[|s| + 1..]
  {
  }

  /** stringcopy; source holds the bytes in memory from the source string on. */
  method StringCopy(target: array<Byte>, source: seq<Byte>, buflen: int)
    requires 0 < target.Length && buflen <= target.Length && 0 in source
    modifies target
    ensures target[..] == Copied(old(target[..]), CString(source), buflen)
  {
    hide CString; hide Copied;
    ghost var t0 := target[..];
    var t, s, i := 0, 0, 0;
    while i < buflen - 1
      invariant 0 <= i && t == s == i && (i == 0 || i <= buflen - 1) && i < |source|
      invariant forall k :: 0 <= k < i ==> source[k] != 0
      invariant forall k :: 0 <= k < target.Length ==> target[k] == if k < i then source[k] else t0[k]
    {
      target[t] := source[s];
      if source[s] == 0 {
        i := i + 1;
        ghost var done := target[..];
        while i < buflen
          invariant target[..] == done
        {
          target[t] := 0;                   // the same byte again: the pointer stays
          i := i + 1;
        }
        CopyDone(t0, done, source, t, buflen);
        return;
      }
      i, t, s := i + 1, t + 1, s + 1;
    }
    target[t] := 0;
    CopyDone(t0, target[..], source, t, buflen);
  }

  /** The copied string reads back, cut. */
  lemma CopiedReads(t: seq<Byte>, nm: seq<Byte>, n: int)
    requires 0 < |t| && n <= |t| && forall k :: 0 <= k < |nm| ==> nm[k] != 0
    ensures CString(Copied(t, nm, n)) == if |nm| < n then nm else if n > 0 then nm[..n - 1] else []
  {
    var k := CopiedLength(n, nm);
    CStringOf(nm[..k], t[k + 1..]);
  }

  /** The rest of the buffer is padded with nulls exactly if the bytes after the terminator were zero before. */
  lemma PaddedExactly(t: seq<Byte>, nm: seq<Byte>, n: int)
    requires 0 < n <= |t|
    ensures var k := CopiedLength(n, nm);
            (forall j :: k <= j < n ==> Copied(t, nm, n)[j] == 0) <==> (forall j :: k < j < n ==> t[j] == 0)
  {
    var k := CopiedLength(n, nm);
    forall j | k < j < n
      ensures Copied(t, nm, n)[j] == t[j]
    {
    }
  }
}
