/**
 * The two vocabularies the assistant encoder stream translates between.
 * Payloads whose structure the encoder never inspects (citations, annotation
 * objects, data, tool results, error values, step and finish metadata) are
 * values of the opaque type parameter V.
 */
module StreamChunk {

  /** One canonical assistant-stream chunk, one constructor per chunk type emitted. */
  datatype Chunk<V> =
    | ReasoningDelta(text: string)
    | Source(source: V)
    | TextDelta(text: string)
    | ToolCallBegin(toolCallId: string, toolName: string)
    | ToolCallDelta(toolCallId: string, argsTextDelta: string)
    | ToolCallResult(toolCallId: string, result: V)
    | Annotation(annotations: seq<V>)
    | Data(data: V)
    | FinishStep(rest: V)
    | FinishMessage(rest: V)
    | Error(error: V)
}

module StreamPart {

  /**
   * One provider stream part, by its `type` tag. StepFinish and Finish carry
   * `rest`: every field of the part except the `type` discriminator.
   * Unknown stands for a part whose tag is none of the twelve handled ones
   * above ("reasoning", "source", "text-delta", "tool-call-delta",
   * "tool-call", "tool-result", "response-metadata", "step-finish",
   * "finish", "error", "annotations", "data"); a part with a handled tag is
   * always its own constructor, never Unknown.
   */
  datatype Part<V> =
    | Reasoning(textDelta: string)
    | Source(source: V)
    | TextDelta(textDelta: string)
    | ToolCallDelta(toolCallId: string, toolName: string, argsTextDelta: string)
    | ToolCall(call: V)
    | ToolResult(toolCallId: string, result: V)
    | ResponseMetadata(metadata: V)
    | StepFinish(rest: V)
    | Finish(rest: V)
    | Error(error: V)
    | Annotations(annotations: seq<V>)
    | Data(data: V)
    | Unknown(tag: string)
}
