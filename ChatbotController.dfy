/** The chatbot's controller (`src/controllers/chatbot_controller.py`): it
    validates a message and packages the service's analysis, prompt and reply
    into one result record. */
module ChatbotController {
  import opened Text
  import opened ChatbotService

  datatype Option<T> = None | Some(value: T)

  /** The dictionary `process_message` returns; `analisis` is `None` for the
      empty dictionary of the error path. */
  datatype ChatResult = ChatResult(
    mensajeOriginal: string, esValido: bool, respuesta: string,
    promptUsado: string, analisis: Option<Analysis>)

  const ErrorPrefix: string := "Error processing message: "

  /** `validate_message(message)`: false for the empty message and for one
      that `strip()` empties. The second test, `len(message.strip()) < 1`,
      can never fire once the first has passed. */
  function ValidateMessage(message: string): (ok: bool)
    ensures ok <==> !AllSpace(message)
    ensures ok ==> message != "" && !IsSpace(Strip(message)[0])
  {
    if message == "" || Strip(message) == "" then false
    else if |Strip(message)| < 1 then assert false; false
    else true
  }

  /** `process_message(message)`. `fault` is the text of an exception raised
      inside the `try` block, if one is; the service functions themselves
      raise none for a string message. */
  function ProcessMessage(message: string, fault: Option<string>): (r: ChatResult)
    ensures r.mensajeOriginal == message
    ensures r.esValido <==> fault.None?
    ensures r.esValido ==>
      r.analisis == Some(Prerouting(message)) &&
      r.respuesta == Reply(message) &&
      r.promptUsado == GeneratePrompt(Prerouting(message), message)
    ensures !r.esValido ==>
      r.promptUsado == "" && r.analisis.None? &&
      |r.respuesta| >= |ErrorPrefix| && r.respuesta[..|ErrorPrefix|] == ErrorPrefix &&
      r.respuesta[|ErrorPrefix|..] == fault.value
  {
    match fault
    case None =>
      var analysis := Prerouting(message);
      var prompt := GeneratePrompt(analysis, message);
      var reply := Reply(message);
      ChatResult(message, true, reply, prompt, Some(analysis))
    case Some(e) =>
      ChatResult(message, false, ErrorPrefix + e, "", None)
  }

  /** A successful result is self-consistent: its analysis describes the
      original message, its prompt quotes that message first, and its reply
      is one of the five templates. */
  lemma SuccessfulResult(message: string)
    ensures var r := ProcessMessage(message, None);
      r.esValido && r.analisis.Some? &&
      r.analisis.value.length == |r.mensajeOriginal| &&
      (r.analisis.value.hasQuestion <==> '?' in r.mensajeOriginal) &&
      r.promptUsado[..11 + |message|] == "User says: " + message &&
      r.respuesta != "" &&
      r.respuesta in {Greeting, WellBeing, Farewell, QuestionReply(message), DefaultReply(message)}
  {
  }

  /** A message that passes validation has at least one word. */
  lemma ValidMessageHasWords(message: string)
    requires ValidateMessage(message)
    ensures Prerouting(message).wordCount >= 1
  {
  }
}
