/**
 * The choice of text decoding in src/lib/actions.ts: the candidate decoders
 * are tried in order; each successful decode replaces the current text, and
 * the first decoded text that contains a semicolon is kept. A decoder that
 * throws leaves the current text as it was. The byte-level decoders are not
 * modelled: each attempt is given as its outcome, `Some(text)` or `None`
 * when the decoder threw.
 */
module Decoding {
  import opened Wrappers

  /** The attempt succeeded and the decoded text contains `;`. */
  predicate HasSemicolon(attempt: Option<string>) {
    attempt.Some? && ';' in attempt.value
  }

  /** The position of the first attempt whose text contains `;`, if any. */
  function FirstWithSemicolon(attempts: seq<Option<string>>): (r: Option<nat>)
    ensures r.Some? ==> r.value < |attempts| && HasSemicolon(attempts[r.value])
                        && forall j :: 0 <= j < r.value ==> !HasSemicolon(attempts[j])
    ensures r.None? ==> forall j :: 0 <= j < |attempts| ==> !HasSemicolon(attempts[j])
  {
    if attempts == [] then None
    else if HasSemicolon(attempts[0]) then Some(0)
    else match FirstWithSemicolon(attempts[1..])
      case None => None
      case Some(i) => Some(i + 1)
  }

  /** The text of the last attempt that succeeded, or the empty string when none did. */
  function LastDecoded(attempts: seq<Option<string>>): string {
    if attempts == [] then ""
    else
      var last := attempts[|attempts| - 1];
      if last.Some? then last.value else LastDecoded(attempts[..|attempts| - 1])
  }

  /** LastDecoded is the text of the success that no later success follows, and `""` when every attempt failed. */
  lemma {:induction false} LastDecodedIsLastSuccess(attempts: seq<Option<string>>)
    ensures (forall j :: 0 <= j < |attempts| ==> attempts[j].None?) ==> LastDecoded(attempts) == ""
    ensures forall j :: 0 <= j < |attempts| && attempts[j].Some? && (forall k :: j < k < |attempts| ==> attempts[k].None?)
                        ==> LastDecoded(attempts) == attempts[j].value
  {
    if attempts != [] {
      var init := attempts[..|attempts| - 1];
      LastDecodedIsLastSuccess(init);
      assert forall j :: 0 <= j < |init| ==> init[j] == attempts[j];
    }
  }

  /**
   * The text the decoder loop ends with: the first decoded text containing
   * `;`, or, when there is none, the last text that decoded at all.
   */
  function ChosenText(attempts: seq<Option<string>>): string {
    match FirstWithSemicolon(attempts)
    case Some(i) => attempts[i].value
    case None => LastDecoded(attempts)
  }

  /** The `for ... of decoders` loop with its `break`, proved to compute ChosenText. */
  method DecodeText(attempts: seq<Option<string>>) returns (decodedText: string)
    ensures decodedText == ChosenText(attempts)
  {
    decodedText := "";
    for i := 0 to |attempts|
      invariant forall j :: 0 <= j < i ==> !HasSemicolon(attempts[j])
      invariant decodedText == LastDecoded(attempts[..i])
    {
      LastDecodedStep(attempts, i);
      match attempts[i]
      case Some(text) =>
        decodedText := text;
        if ';' in decodedText {
          ChosenFirst(attempts, i);
          return;
        }
      case None =>
    }
    assert attempts[..|attempts|] == attempts;
    ChosenLast(attempts);
  }

  /** One more attempt: a success replaces the last decoded text, a failure keeps it. */
  lemma LastDecodedStep(attempts: seq<Option<string>>, i: nat)
    requires i < |attempts|
    ensures LastDecoded(attempts[..i + 1]) == if attempts[i].Some? then attempts[i].value else LastDecoded(attempts[..i])
  {
    assert attempts[..i + 1][..i] == attempts[..i];
  }

  /** An attempt with `;` after none is the text chosen. */
  lemma ChosenFirst(attempts: seq<Option<string>>, i: nat)
    requires i < |attempts| && HasSemicolon(attempts[i])
    requires forall j :: 0 <= j < i ==> !HasSemicolon(attempts[j])
    ensures ChosenText(attempts) == attempts[i].value
  {
    assert FirstWithSemicolon(attempts) == Some(i);
  }

  /** Without any `;`, the last decoded text is the one chosen. */
  lemma ChosenLast(attempts: seq<Option<string>>)
    requires forall j :: 0 <= j < |attempts| ==> !HasSemicolon(attempts[j])
    ensures ChosenText(attempts) == LastDecoded(attempts)
  {
    assert FirstWithSemicolon(attempts).None?;
  }

  /** A decoded text with a semicolon wins over every later one; without any, the last decode stands. */
  lemma ChosenTextCases(attempts: seq<Option<string>>)
    ensures (exists j :: 0 <= j < |attempts| && HasSemicolon(attempts[j])) ==> ';' in ChosenText(attempts)
    ensures (forall j :: 0 <= j < |attempts| ==> attempts[j].None?) ==> ChosenText(attempts) == ""
    ensures ';' in ChosenText(attempts) ==> FirstWithSemicolon(attempts).Some?
  {
    LastDecodedIsLastSuccess(attempts);
    if FirstWithSemicolon(attempts).None? && ';' in ChosenText(attempts) {
      LastDecodedIsAnAttempt(attempts);
    }
  }

  lemma {:induction false} LastDecodedIsAnAttempt(attempts: seq<Option<string>>)
    requires LastDecoded(attempts) != ""
    ensures exists j :: 0 <= j < |attempts| && attempts[j] == Some(LastDecoded(attempts))
  {
    var last := attempts[|attempts| - 1];
    if last.None? {
      LastDecodedIsAnAttempt(attempts[..|attempts| - 1]);
      var j :| 0 <= j < |attempts| - 1 && attempts[..|attempts| - 1][j] == Some(LastDecoded(attempts));
      assert attempts[j] == Some(LastDecoded(attempts));
    }
  }
}
