/**
 * The status tags the download manager writes into a task record. The
 * source writes them as literal strings, in two languages; the user-facing
 * ones are Russian. Two kinds of cancellation are kept apart: `Canceled` is
 * written when a task is withdrawn from the queue before it ever started,
 * `CanceledActive` when a running download confirms that it stopped.
 */
module TaskStatus {
  import opened Decimal

  datatype Status =
    | Queued          // "queued"
    | Downloading     // "Загрузка"
    | Paused          // "Пауза"
    | Canceling       // "canceling"
    | Canceled        // "canceled"
    | CanceledActive  // "Отменено"
    | Done            // "Готово"
    | Error(rc: int)  // "Ошибка(<rc>)"

  const ErrorHead: string := "Ошибка("

  /** The literal the source stores in the record's "status" field. */
  function Text(s: Status): string {
    match s
    case Queued => "queued"
    case Downloading => "Загрузка"
    case Paused => "Пауза"
    case Canceling => "canceling"
    case Canceled => "canceled"
    case CanceledActive => "Отменено"
    case Done => "Готово"
    case Error(rc) => ErrorHead + IntToString(rc) + ")"
  }

  /** A tag is an error tag exactly when its text begins with "Ошибка(". */
  lemma ErrorTextShape(s: Status)
    ensures s.Error? <==> |Text(s)| > |ErrorHead| && Text(s)[..|ErrorHead|] == ErrorHead
  {
    if s == CanceledActive {
      assert Text(s)[1] != ErrorHead[1];
    } else if !s.Error? && |Text(s)| > |ErrorHead| {
      assert Text(s)[0] != ErrorHead[0];
    }
  }

  /** No two statuses share a text, so the presentation layer can tell them apart. */
  lemma {:induction false} TextInjective(s: Status, t: Status)
    requires Text(s) == Text(t)
    ensures s == t
  {
    ErrorTextShape(s);
    ErrorTextShape(t);
    if s.Error? && t.Error? {
      assert IntToString(s.rc) == Text(s)[|ErrorHead|..|Text(s)| - 1];
      assert IntToString(t.rc) == Text(t)[|ErrorHead|..|Text(t)| - 1];
      IntToStringInjective(s.rc, t.rc);
    }
  }
}
