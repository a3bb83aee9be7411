/**
 * Decoding of newline-delimited JSON responses (`ReadStreamedResponses`).
 *
 * The response body arrives as a sequence of lines. Every line that is not
 * exactly empty is decoded on its own and appended to the result in arrival
 * order; the first line that fails to decode aborts the call. Cancellation is
 * looked at before each line is read: once it is seen, reading stops and the
 * results gathered so far are returned as a success.
 */
module Streaming {
  import opened Wrappers

  /** The lines handed to the decoder: every line except the exactly-empty ones, in order. */
  function Kept(lines: seq<string>): (r: seq<string>)
    ensures |r| <= |lines|
    ensures forall j :: 0 <= j < |r| ==> r[j] != "" && r[j] in lines
  {
    if lines == [] then []
    else if lines[0] == "" then Kept(lines[1..])
    else [lines[0]] + Kept(lines[1..])
  }

  /** Decodes each line in turn; the first failure is the result. */
  function DecodeEach<T, E>(decode: string -> Result<T, E>, ls: seq<string>): (r: Result<seq<T>, E>)
    ensures r.Success? ==> |r.value| == |ls|
  {
    if ls == [] then Success([])
    else
      match decode(ls[0])
      case Failure(e) => Failure(e)
      case Success(x) =>
        match DecodeEach(decode, ls[1..])
        case Failure(e) => Failure(e)
        case Success(xs) => Success([x] + xs)
  }

  /** Cancellation, requested once `cancelAt` lines have been read, is seen at the loop head after `i` lines. */
  predicate CancellationObserved(cancelAt: Option<nat>, i: nat) {
    cancelAt.Some? && cancelAt.value <= i
  }

  /** A requested cancellation is never withdrawn: once seen at a loop head, it is seen at every later one. */
  lemma CancellationPersists(cancelAt: Option<nat>, i: nat, j: nat)
    requires i <= j
    ensures CancellationObserved(cancelAt, i) ==> CancellationObserved(cancelAt, j)
  {
  }

  /** The number of lines read before the loop stops: at the end of the body or at the first cancelled loop head. */
  function StopPoint(n: nat, cancelAt: Option<nat>): (k: nat)
    ensures k <= n
    ensures k == n || CancellationObserved(cancelAt, k)
    ensures forall i :: 0 <= i < k ==> !CancellationObserved(cancelAt, i)
  {
    if cancelAt.Some? && cancelAt.value < n then cancelAt.value else n
  }

  /** What reading a body made of `lines` returns when cancellation is requested after `cancelAt` lines. */
  function StreamedResults<T, E>(decode: string -> Result<T, E>, lines: seq<string>, cancelAt: Option<nat>): (r: Result<seq<T>, E>)
    ensures r.Success? ==> |r.value| <= StopPoint(|lines|, cancelAt) <= |lines|
    ensures cancelAt == Some(0) ==> r == Success([])
  {
    DecodeEach(decode, Kept(lines[..StopPoint(|lines|, cancelAt)]))
  }

  /** The reading loop: one line per iteration, `results` only ever grows at its end. */
  method ReadStreamedResponses<T, E>(decode: string -> Result<T, E>, lines: seq<string>, cancelAt: Option<nat>)
    returns (r: Result<seq<T>, E>)
    ensures r == StreamedResults(decode, lines, cancelAt)
  {
    var results: seq<T> := [];
    var i := 0;
    while i < |lines| && !CancellationObserved(cancelAt, i)
      invariant i <= StopPoint(|lines|, cancelAt)
      invariant DecodeEach(decode, Kept(lines[..i])) == Success(results)
    {
      var line := lines[i];
      StreamStep(decode, lines, i, results);
      i := i + 1;
      if line != "" {
        var item := decode(line);
        if item.Failure? {
          PrefixOfLonger(decode, lines, i, StopPoint(|lines|, cancelAt));
          return Failure(item.error);
        }
        results := results + [item.value];
      }
    }
    return Success(results);
  }

  // ---------------------------------------------------------------------
  // Properties of the line filter

  /** A line is kept exactly when it occurs in the body and is not empty; whitespace-only lines are kept. */
  lemma {:induction false} KeptMembership(lines: seq<string>, l: string)
    ensures l in Kept(lines) <==> l in lines && l != ""
  {
    if lines != [] {
      KeptMembership(lines[1..], l);
      assert lines == [lines[0]] + lines[1..];
    }
  }

  /** Filtering distributes over concatenation: the filter keeps the order of the body. */
  lemma {:induction false} KeptAppend(a: seq<string>, b: seq<string>)
    ensures Kept(a + b) == Kept(a) + Kept(b)
  {
    if a == [] {
      assert a + b == b;
    } else {
      assert (a + b)[1..] == a[1..] + b;
      KeptAppend(a[1..], b);
    }
  }

  /** The filter drops exactly the empty lines. */
  lemma {:induction false} KeptCount(lines: seq<string>)
    ensures |Kept(lines)| + multiset(lines)[""] == |lines|
  {
    if lines != [] {
      KeptCount(lines[1..]);
      assert lines == [lines[0]] + lines[1..];
      assert multiset(lines) == multiset{lines[0]} + multiset(lines[1..]);
    }
  }

  // ---------------------------------------------------------------------
  // Properties of decoding

  /** Decoding a concatenation is decoding the parts, the first part's failure winning. */
  lemma {:induction false} DecodeEachAppend<T, E>(decode: string -> Result<T, E>, a: seq<string>, b: seq<string>)
    ensures DecodeEach(decode, a + b) ==
      match DecodeEach(decode, a)
      case Failure(e) => Failure(e)
      case Success(xs) =>
        match DecodeEach(decode, b)
        case Failure(e) => Failure(e)
        case Success(ys) => Success(xs + ys)
  {
    if a == [] {
      assert a + b == b;
      match DecodeEach(decode, b) {
        case Failure(e) =>
        case Success(ys) => assert [] + ys == ys;
      }
    } else {
      assert (a + b)[0] == a[0];
      assert (a + b)[1..] == a[1..] + b;
      DecodeEachAppend(decode, a[1..], b);
      match decode(a[0]) {
        case Failure(e) =>
        case Success(x) =>
          match DecodeEach(decode, a[1..]) {
            case Failure(e) =>
            case Success(xs) =>
              match DecodeEach(decode, b) {
                case Failure(e) =>
                case Success(ys) => assert [x] + (xs + ys) == ([x] + xs) + ys;
              }
          }
      }
    }
  }

  /** Decoding succeeds when every line decodes, yields one value per line in line order, and otherwise reports the first failing line. */
  lemma {:induction false} DecodeEachMeaning<T, E>(decode: string -> Result<T, E>, ls: seq<string>)
    ensures DecodeEach(decode, ls).Success? <==> forall j :: 0 <= j < |ls| ==> decode(ls[j]).Success?
    ensures DecodeEach(decode, ls).Success? ==>
      |DecodeEach(decode, ls).value| == |ls| &&
      forall j :: 0 <= j < |ls| ==> DecodeEach(decode, ls).value[j] == decode(ls[j]).value
    ensures DecodeEach(decode, ls).Failure? ==>
      exists j :: 0 <= j < |ls| && decode(ls[j]) == Failure(DecodeEach(decode, ls).error) &&
        forall i :: 0 <= i < j ==> decode(ls[i]).Success?
  {
    if ls != [] {
      var tail := ls[1..];
      DecodeEachMeaning(decode, tail);
      assert forall j :: 1 <= j < |ls| ==> ls[j] == tail[j - 1];
      match decode(ls[0]) {
        case Failure(e) =>
          assert decode(ls[0]) == Failure(DecodeEach(decode, ls).error);
        case Success(x) =>
          match DecodeEach(decode, tail) {
            case Failure(e) =>
              var j :| 0 <= j < |tail| && decode(tail[j]) == Failure(e) &&
                forall i :: 0 <= i < j ==> decode(tail[i]).Success?;
              assert decode(ls[j + 1]) == Failure(DecodeEach(decode, ls).error);
              assert forall i :: 0 <= i < j + 1 ==> decode(ls[i]).Success? by {
                forall i | 0 <= i < j + 1 ensures decode(ls[i]).Success? {
                  if i > 0 { assert ls[i] == tail[i - 1]; }
                }
              }
            case Success(xs) =>
              forall j | 0 <= j < |ls| ensures DecodeEach(decode, ls).value[j] == decode(ls[j]).value {
                if j > 0 { assert ls[j] == tail[j - 1]; }
              }
          }
      }
    }
  }

  // ---------------------------------------------------------------------
  // Properties of the streamed read

  /** One loop iteration: an empty line leaves the results alone, another line appends its decoded value or aborts. */
  lemma StreamStep<T, E>(decode: string -> Result<T, E>, lines: seq<string>, i: nat, xs: seq<T>)
    requires i < |lines|
    requires DecodeEach(decode, Kept(lines[..i])) == Success(xs)
    ensures DecodeEach(decode, Kept(lines[..i + 1])) ==
      if lines[i] == "" then Success(xs)
      else match decode(lines[i])
        case Failure(e) => Failure(e)
        case Success(x) => Success(xs + [x])
  {
    assert lines[..i + 1] == lines[..i] + [lines[i]];
    KeptAppend(lines[..i], [lines[i]]);
    var one := [lines[i]];
    assert one[1..] == [];
    assert Kept(one) == if lines[i] == "" then [] else one;
    DecodeEachAppend(decode, Kept(lines[..i]), Kept(one));
    if lines[i] == "" {
      assert xs + [] == xs;
    } else {
      assert one[0] == lines[i] && DecodeEach(decode, one[1..]) == Success([]);
      match decode(lines[i]) {
        case Failure(e) =>
        case Success(x) => assert [x] + [] == [x];
      }
    }
  }

  /** Reading fewer lines gives a prefix of reading more; a failure among the first lines is final. */
  lemma PrefixOfLonger<T, E>(decode: string -> Result<T, E>, lines: seq<string>, i: nat, k: nat)
    requires i <= k <= |lines|
    ensures DecodeEach(decode, Kept(lines[..i])).Failure? ==>
      DecodeEach(decode, Kept(lines[..k])) == DecodeEach(decode, Kept(lines[..i]))
    ensures DecodeEach(decode, Kept(lines[..k])).Success? ==>
      DecodeEach(decode, Kept(lines[..i])).Success? &&
      DecodeEach(decode, Kept(lines[..i])).value <= DecodeEach(decode, Kept(lines[..k])).value
  {
    assert lines[..k] == lines[..i] + lines[i..k];
    KeptAppend(lines[..i], lines[i..k]);
    DecodeEachAppend(decode, Kept(lines[..i]), Kept(lines[i..k]));
  }

  /** When cancellation stops the read, the result is a prefix of what the full read yields. */
  lemma CancelledReadIsPrefix<T, E>(decode: string -> Result<T, E>, lines: seq<string>, cancelAt: Option<nat>)
    ensures StreamedResults(decode, lines, None).Success? ==>
      StreamedResults(decode, lines, cancelAt).Success? &&
      StreamedResults(decode, lines, cancelAt).value <= StreamedResults(decode, lines, None).value
  {
    assert lines[..|lines|] == lines;
    PrefixOfLonger(decode, lines, StopPoint(|lines|, cancelAt), |lines|);
  }

  /** Cancellation is never an error: a failed read names a non-empty line before the stop point that failed to decode. */
  lemma CancellationIsNotAnError<T, E>(decode: string -> Result<T, E>, lines: seq<string>, cancelAt: Option<nat>)
    ensures StreamedResults(decode, lines, cancelAt).Failure? ==>
      exists j :: 0 <= j < StopPoint(|lines|, cancelAt) && lines[j] != "" &&
        decode(lines[j]) == Failure(StreamedResults(decode, lines, cancelAt).error)
  {
    var prefix := lines[..StopPoint(|lines|, cancelAt)];
    var r := StreamedResults(decode, lines, cancelAt);
    if r.Failure? {
      DecodeEachMeaning(decode, Kept(prefix));
      var m :| 0 <= m < |Kept(prefix)| && decode(Kept(prefix)[m]) == Failure(r.error);
      var l := Kept(prefix)[m];
      var j :| 0 <= j < |prefix| && prefix[j] == l;
      assert lines[j] == l;
    }
  }

  /** Every non-empty line before the stop point, whitespace-only lines included, is passed to the decoder. */
  lemma EveryNonEmptyLineIsDecoded<T, E>(decode: string -> Result<T, E>, lines: seq<string>, cancelAt: Option<nat>, j: nat)
    requires j < StopPoint(|lines|, cancelAt)
    requires lines[j] != ""
    ensures decode(lines[j]).Failure? ==> StreamedResults(decode, lines, cancelAt).Failure?
    ensures StreamedResults(decode, lines, cancelAt).Success? ==>
      decode(lines[j]).Success? && decode(lines[j]).value in StreamedResults(decode, lines, cancelAt).value
  {
    var prefix := lines[..StopPoint(|lines|, cancelAt)];
    assert prefix[j] == lines[j];
    KeptMembership(prefix, lines[j]);
    var m :| 0 <= m < |Kept(prefix)| && Kept(prefix)[m] == lines[j];
    DecodeEachMeaning(decode, Kept(prefix));
    if StreamedResults(decode, lines, cancelAt).Success? {
      assert StreamedResults(decode, lines, cancelAt).value[m] == decode(lines[j]).value;
    }
  }

  /** Read to the end without cancellation, a successful read has one value per non-empty line. */
  lemma FullReadLength<T, E>(decode: string -> Result<T, E>, lines: seq<string>)
    ensures StreamedResults(decode, lines, None).Success? ==>
      |StreamedResults(decode, lines, None).value| == |lines| - multiset(lines)[""]
  {
    assert lines[..|lines|] == lines;
    KeptCount(lines);
    DecodeEachMeaning(decode, Kept(lines));
  }
}
