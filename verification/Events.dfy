/** The terminal events of an evaluation (app/infra/event_bus/events.py). */
module Events {
  import opened JobStore

  datatype Topic = EvalCompleted | EvalFailed

  /** `text` is the result of a completion or the error of a failure. */
  datatype Event = Event(topic: Topic, job: JobId, text: string)
}
