/** A job's result channel: what Complete sends, and what the waiting caller makes of the
    first message. */
module Jobs {
  import opened Counting
  import opened Models

  /** What a worker computed: the data and Go's nil or non-nil error. */
  datatype Output<D> = Output(data: D, err: Option<Error>)

  datatype JobOutput<D> = JobOutput(success: bool, data: D, error: Option<Error>)

  /** The messages Complete sends, in order. After a success message it goes on to send the
      failure message too, because the first branch does not return. */
  function Sends<D>(out: Output<D>): seq<JobOutput<D>> {
    (if out.err.None? then [JobOutput(true, out.data, out.err)] else [])
    + [JobOutput(false, out.data, out.err)]
  }

  /** Whatever happens later, the first message carries the job's own data and error, and
      its flag tells a success from a failure. */
  lemma FirstMessageIsTheOutput<D>(out: Output<D>)
    ensures var m := Sends(out)[0];
            m.data == out.data && m.error == out.err && (m.success <==> out.err.None?)
    ensures |Sends(out)| == if out.err.None? then 2 else 1
  {
  }

  class BaseJob<D> {
    var resultChan: seq<JobOutput<D>>
    var notified: bool

    ghost predicate Valid()
      reads this
    {
      |resultChan| <= 1
    }

    constructor ()
      ensures Valid() && resultChan == [] && !notified
    {
      resultChan := [];
      notified := false;
    }

    /** A send into the channel of capacity one, while nobody receives. */
    method Send(m: JobOutput<D>) returns (sent: bool)
      requires Valid()
      modifies this`resultChan
      ensures Valid() && sent == (old(resultChan) == [])
      ensures resultChan == if sent then [m] else old(resultChan)
    {
      if resultChan != [] {
        return false;
      }
      resultChan := [m];
      return true;
    }

    /** Complete with no receiver around; `pending` are the sends it is blocked on. Only the
        first call does anything. */
    method Complete(data: D, err: Option<Error>) returns (pending: seq<JobOutput<D>>)
      requires Valid()
      modifies this
      ensures Valid() && notified
      ensures old(notified) ==> pending == [] && resultChan == old(resultChan)
      ensures !old(notified) ==>
                resultChan + pending == old(resultChan) + Sends(Output(data, err))
      ensures !old(notified) && old(resultChan) == [] ==>
                if err.Some? then resultChan == [JobOutput(false, data, err)] && pending == []
                else resultChan == [JobOutput(true, data, None)] && pending == [JobOutput(false, data, None)]
    {
      if notified {
        return [];
      }
      notified := true;
      var failure := JobOutput(false, data, err);
      if err.None? {
        var first := JobOutput(true, data, err);
        var sent := Send(first);
        if !sent {
          return [first, failure];
        }
      }
      var sent := Send(failure);
      pending := if sent then [] else [failure];
    }
  }

  // ---------------------------------------------------------------- the waiting caller

  /** What ended the caller's select. */
  datatype Wakeup<D> =
    | Message(m: JobOutput<D>)
    | ChannelClosed
    | TimedOut
    | Cancelled(reason: Error)

  /** `cast` is the type assertion on the payload, `zero` the zero value of the type. */
  function WaitJobResult<D, T>(cast: D -> Option<T>, zero: T, w: Wakeup<D>): Output<T> {
    match w
    case ChannelClosed => Output(zero, Some("result channel closed"))
    case TimedOut => Output(zero, Some("search timed out"))
    case Cancelled(reason) => Output(zero, Some(reason))
    case Message(m) =>
      if m.error.Some? then Output(zero, m.error)
      else
        match cast(m.data)
        case None => Output(zero, Some("wrong result type"))
        case Some(t) => Output(t, None)
  }
}
