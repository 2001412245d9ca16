/** What a bulletin-board client makes of the answer to its post or reply. */
module Answers {
  import opened Text
  import opened Tokenizer

  /** success, failure, a number that says neither, or no number at all, on which stoi throws. */
  datatype Feedback = Success | Failure | Neither | Throws

  /** The second token decides. */
  function FeedbackOf(answer: string): Feedback {
    var result := TokenAt(Tokens(answer, {';'}), 1);
    if !HasNumber(result) then Throws
    else if Atoi(result) == 1 then Success
    else if Atoi(result) == 0 then Failure
    else Neither
  }

  function AnswerText(ok: bool): string {
    if ok then "ACK_comp;1" else "ACK_comp;0"
  }

  /** The client takes an answer for what it was made of. */
  lemma {:induction false} AnswerIsRead(ok: bool)
    ensures FeedbackOf(AnswerText(ok)) == if ok then Success else Failure
    ensures AnswerText(ok) == "ACK_comp;" + if ok then "1" else "0"
  {
    var flag := if ok then "1" else "0";
    assert AnswerText(ok) == "ACK_comp" + [';'] + flag;
    TokenFirst("ACK_comp", ';', flag, {';'});
    TokenAlone(flag, {';'});
    assert IntText(1) == "1" && IntText(0) == "0";
    AtoiText(if ok then 1 else 0);
  }
}
