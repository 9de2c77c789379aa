/**
 Errors as the Go code sees them: a classification (the Kubernetes API status
 reason, or "not allowed" for the ownership checks), the text returned by
 `Error()`, and the advice text of a humane error. The HTTP layer decides
 between 404 and 500 by looking for "not found" in that text, so the lemmas
 here say when wrapping and the not-allowed message keep or avoid that phrase.
 */
module Errors {
  import opened Text

  datatype Reason = NotFound | AlreadyExists | Conflict | NotAllowed | Other

  datatype Error = Error(reason: Reason, message: string, advice: string)

  /** The phrase the handlers look for to answer 404. */
  const NotFoundPhrase: string := "not found"

  /** `errors.Wrap(err, context)` of github.com/pkg/errors: the cause keeps its class. */
  function Wrap(e: Error, context: string): (w: Error)
    ensures w.reason == e.reason && w.advice == e.advice
    ensures |w.message| == |context| + 2 + |e.message|
    ensures w.message[..|context|] == context && w.message[|context|..|context| + 2] == ": "
    ensures w.message[|context| + 2..] == e.message
  {
    Error(e.reason, context + ": " + e.message, e.advice)
  }

  /**
   Wrapping with a context that does not itself say "not found" neither adds nor
   hides the phrase: the 404/500 decision sees through the wrapper.
   */
  lemma WrapPreservesNotFound(e: Error, context: string)
    requires !Contains(context, NotFoundPhrase)
    ensures Contains(Wrap(e, context).message, NotFoundPhrase) <==> Contains(e.message, NotFoundPhrase)
  {
    var m := e.message;
    assert context + ": " + m == (context + ":") + ([' '] + m);
    ContainsAcrossSeparator(context, ":", NotFoundPhrase, ':');
    ContainsAcrossSeparator(context + ":", [' '] + m, NotFoundPhrase, ':');
    ContainsSkipsLeadingChar(' ', m, NotFoundPhrase);
  }

  /** `CRUDOperation`. */
  datatype CrudOperation = CreateOp | ReadOp | UpdateOp | DeleteOp

  /** The string value of each `CRUDOperation` constant. */
  function OperationName(op: CrudOperation): (s: string)
    ensures s in {"create", "read", "update", "delete"}
    ensures !Contains(s, NotFoundPhrase)
  {
    match op
    case CreateOp => "create"
    case ReadOp => "read"
    case UpdateOp => "update"
    case DeleteOp => "delete"
  }

  /** Distinct operations render distinctly, so the message names the operation refused. */
  lemma OperationNamesDistinct(a: CrudOperation, b: CrudOperation)
    requires OperationName(a) == OperationName(b)
    ensures a == b
  {
    match a
    case CreateOp => assert OperationName(a)[0] == 'c';
    case ReadOp => assert OperationName(a)[0] == 'r';
    case UpdateOp => assert OperationName(a)[0] == 'u';
    case DeleteOp => assert OperationName(a)[0] == 'd';
  }

  const NotAllowedAdvice: string :=
    "ensure you have the correct permissions to perform this operation on the ShortLink."

  function NotAllowedMessage(operation: string, username: string, shortlinkName: string): string {
    "Operation '" + operation + "' for user '" + username + "' is not allowed for ShortLink '" + shortlinkName + "'"
  }

  /** None of the fixed pieces of the not-allowed message says "not found". */
  lemma NotAllowedFixedTexts()
    ensures !Contains("Operation '", NotFoundPhrase) && !Contains("' for user '", NotFoundPhrase)
    ensures !Contains("' is not allowed for ShortLink '", NotFoundPhrase) && !Contains("'", NotFoundPhrase)
  {
    AbsentCharExcludes("Operation '", NotFoundPhrase, 'f');
    AbsentCharExcludes("' for user '", NotFoundPhrase, 'd');
    NotAllowedMiddleText();
    AbsentCharExcludes("'", NotFoundPhrase, 'n');
  }

  lemma NotAllowedMiddleText()
    ensures !Contains("' is not allowed for ShortLink '", NotFoundPhrase)
  {
    AbsentCharExcludes("' is not allowed for ShortLink '", NotFoundPhrase, 'u');
  }

  /**
   The fixed text of the not-allowed message never says "not found", and every
   argument sits between quote characters that the phrase lacks, so the message
   says "not found" exactly when one of its arguments does.
   */
  lemma {:induction false} NotAllowedMessageMentionsNotFound(operation: string, username: string, shortlinkName: string)
    ensures Contains(NotAllowedMessage(operation, username, shortlinkName), NotFoundPhrase) <==>
      Contains(operation, NotFoundPhrase) || Contains(username, NotFoundPhrase) || Contains(shortlinkName, NotFoundPhrase)
  {
    var nf := NotFoundPhrase;
    var f0, f1, f2, f3 := "Operation '", "' for user '", "' is not allowed for ShortLink '", "'";
    NotAllowedFixedTexts();
    var x1 := f0 + operation;
    ContainsAcrossSeparator(f0, operation, nf, '\'');
    var x2 := x1 + f1;
    ContainsAcrossSeparator(x1, f1, nf, '\'');
    var x3 := x2 + username;
    assert x2[|x2| - 1] == '\'';
    ContainsAcrossSeparator(x2, username, nf, '\'');
    var x4 := x3 + f2;
    ContainsAcrossSeparator(x3, f2, nf, '\'');
    var x5 := x4 + shortlinkName;
    assert x4[|x4| - 1] == '\'';
    ContainsAcrossSeparator(x4, shortlinkName, nf, '\'');
    ContainsAcrossSeparator(x5, f3, nf, '\'');
    assert NotAllowedMessage(operation, username, shortlinkName) == x5 + f3;
  }

  /**
   `NewNotAllowedError`: a not-allowed error whose advice does not depend on the
   arguments and whose message says "not found" only through its arguments.
   */
  function NewNotAllowedError(username: string, operation: string, shortlinkName: string): (e: Error)
    ensures e.reason == NotAllowed && e.advice == NotAllowedAdvice
    ensures Contains(e.message, NotFoundPhrase) <==>
      Contains(operation, NotFoundPhrase) || Contains(username, NotFoundPhrase) || Contains(shortlinkName, NotFoundPhrase)
  {
    NotAllowedMessageMentionsNotFound(operation, username, shortlinkName);
    Error(NotAllowed, NotAllowedMessage(operation, username, shortlinkName), NotAllowedAdvice)
  }
}
