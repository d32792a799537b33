/** Shared vocabulary: bytes, the Python objects that flow through the codec,
    the exceptions the modelled code raises, and result wrappers. */
module Base {

  /** One byte of a file or of a packed row. */
  type byte = b: int | 0 <= b < 256

  /** A Python object as it reaches the row codec or comes back from it.
      `Null` is Python's `None`.  A float is carried as its 64-bit IEEE-754
      bit pattern and is never converted.  A 4-byte `f` slot of `struct`
      writes and reads such a value as a 32-bit pattern instead: Python's
      narrowing of a double to single precision (rounding, `OverflowError`
      out of range) and the widening on the way back are not modelled. */
  datatype Value =
    | Null
    | Int(i: int)
    | Bool(b: bool)
    | Float(bits: nat)
    | Bytes(bs: seq<byte>)
    | Str(s: string)

  /** The exceptions raised by the modelled code.  `Busy` stands for the
      insert that spins forever on a lock file; `Unmodelled` marks the one
      conversion (integer to IEEE float) this model does not carry out. */
  datatype Error =
    | AssertionError
    | SchemaError(bad: char)
    | StructError
    | AttributeError
    | UnicodeDecodeError
    | UnboundLocalError
    | OSError
    | FileNotFoundError
    | Busy
    | Unmodelled
    | TypeError
    | ValueError
    | OverflowError

  datatype Option<+T> = None | Some(value: T)

  datatype Result<+T> = Ok(value: T) | Err(error: Error)

  /** Python's truth value of an object (`bool(v)`).  A float is false
      exactly for 0.0 and -0.0: the 64-bit patterns with every bit but
      the sign clear. */
  predicate Truthy(v: Value)
  {
    match v
    case Null => false
    case Int(i) => i != 0
    case Bool(b) => b
    case Float(bits) => bits % 0x8000_0000_0000_0000 != 0
    case Bytes(bs) => |bs| > 0
    case Str(s) => |s| > 0
  }

  /** `f` applied to each element of `s`, in order. */
  function MapSeq<A, B>(f: A -> B, s: seq<A>): (r: seq<B>)
    ensures |r| == |s|
    decreases |s|
  {
    if s == [] then [] else MapSeq(f, s[..|s| - 1]) + [f(s[|s| - 1])]
  }

  /** Entry `i` of the mapped sequence is `f` of entry `i`. */
  lemma {:induction false} MapSeqAt<A, B>(f: A -> B, s: seq<A>, i: nat)
    requires i < |s|
    ensures MapSeq(f, s)[i] == f(s[i])
    decreases |s|
  {
    var n := |s| - 1;
    if i < n {
      MapSeqAt(f, s[..n], i);
    }
  }

  /** Mapping a prefix one longer adds `f` of the next element. */
  lemma MapSeqSnoc<A, B>(f: A -> B, s: seq<A>, i: nat)
    requires i < |s|
    ensures MapSeq(f, s[..i + 1]) == MapSeq(f, s[..i]) + [f(s[i])]
  {
    assert s[..i + 1][..i] == s[..i];
  }

  /** The first error `f` reports on the elements of `s`, in order. */
  function FirstError<A>(f: A -> Option<Error>, s: seq<A>): Option<Error>
    decreases |s|
  {
    if s == [] then None
    else if f(s[0]).Some? then f(s[0])
    else FirstError(f, s[1..])
  }

  /** There is no first error exactly when no element has one, and a
      first error is the error of some element. */
  lemma {:induction false} FirstErrorNone<A>(f: A -> Option<Error>, s: seq<A>)
    ensures FirstError(f, s).None? <==> forall i :: 0 <= i < |s| ==> f(s[i]).None?
    ensures FirstError(f, s).Some? ==> exists i :: 0 <= i < |s| && f(s[i]) == FirstError(f, s)
    decreases |s|
  {
    if s != [] {
      FirstErrorNone(f, s[1..]);
      assert forall i :: 1 <= i < |s| ==> s[i] == s[1..][i - 1];
      if FirstError(f, s).Some? && f(s[0]).None? {
        var i :| 0 <= i < |s[1..]| && f(s[1..][i]) == FirstError(f, s);
        assert f(s[i + 1]) == FirstError(f, s);
      }
    }
  }

  /** The first error from element `i` on: that element's own, or the
      first one after it. */
  lemma FirstErrorAt<A>(f: A -> Option<Error>, s: seq<A>, i: nat)
    requires i < |s|
    ensures FirstError(f, s[i..]) == if f(s[i]).Some? then f(s[i]) else FirstError(f, s[i + 1..])
  {
    assert s[i..][0] == s[i] && s[i..][1..] == s[i + 1..];
  }

  /** One more element at the end: its error counts only when none came
      before it. */
  lemma {:induction false} FirstErrorSnoc<A>(f: A -> Option<Error>, s: seq<A>, x: A)
    ensures FirstError(f, s + [x]) == if FirstError(f, s).Some? then FirstError(f, s) else f(x)
    decreases |s|
  {
    var s' := s + [x];
    if s == [] {
      assert s'[1..] == [];
    } else {
      assert s'[0] == s[0] && s'[1..] == s[1..] + [x];
      FirstErrorSnoc(f, s[1..], x);
    }
  }
}
