/**
 * Date labels attached to every booking response: a single date rendered
 * for display, with a sentinel for a missing date, and the "<start> to <end>"
 * range label.
 *
 * The locale rendering of a present date (a long en-US date such as
 * "June 1, 2024") is done by the JavaScript runtime; the model receives it
 * as the parameter `locale` and assumes nothing about it except where a
 * lemma says so.
 */
module DateLabels {

  import opened Collections

  /** A date as it arrives from a request body or a stored booking; `Absent` is any falsy value. */
  datatype DateInput = Absent | Present(day: int)

  const NOT_SPECIFIED := "Not specified"
  const RANGE_SEPARATOR := " to "

  /** The display label of a date: the sentinel when it is absent, otherwise the locale rendering. */
  function FormatDate(locale: int -> string, date: DateInput): (text: string)
  {
    match date
    case Absent => NOT_SPECIFIED
    case Present(day) => locale(day)
  }

  /** The label of the period from `bookDate` to `purchaseDate`. */
  function BookingDateRange(locale: int -> string, bookDate: DateInput, purchaseDate: DateInput): (text: string)
  {
    FormatDate(locale, bookDate) + RANGE_SEPARATOR + FormatDate(locale, purchaseDate)
  }

  /** A missing date is labelled "Not specified", whatever the locale renderer does. */
  lemma AbsentDateLabel(locale: int -> string)
    ensures FormatDate(locale, Absent) == NOT_SPECIFIED
  {
  }

  /** A range label is the start label, then " to ", then the end label. */
  lemma RangeLabelParts(locale: int -> string, bookDate: DateInput, purchaseDate: DateInput)
    ensures var start, end := FormatDate(locale, bookDate), FormatDate(locale, purchaseDate);
      var text := BookingDateRange(locale, bookDate, purchaseDate);
      && |text| == |start| + |RANGE_SEPARATOR| + |end|
      && text[..|start|] == start
      && text[|start|..|start| + |RANGE_SEPARATOR|] == RANGE_SEPARATOR
      && text[|start| + |RANGE_SEPARATOR|..] == end
  {
  }

  /** True when the word " to" occurs somewhere in `s`. */
  predicate MentionsTo(s: string)
  {
    |s| >= 3 && (s[..3] == " to" || MentionsTo(s[1..]))
  }

  /** Splits a range label at the first separator " to ". */
  function SplitRange(s: string): (parts: Option<(string, string)>)
    ensures parts.Some? ==> s == parts.value.0 + RANGE_SEPARATOR + parts.value.1
  {
    if |s| < 4 then None
    else if s[..4] == RANGE_SEPARATOR then Some(([], s[4..]))
    else match SplitRange(s[1..])
      case None => None
      case Some((head, tail)) => Some(([s[0]] + head, tail))
  }

  /**
   * When the start label does not contain the word " to" (the sentinel and
   * long en-US dates do not), the range label determines both labels.
   */
  lemma {:induction false} SplitRangeRoundTrip(locale: int -> string, bookDate: DateInput, purchaseDate: DateInput)
    requires !MentionsTo(FormatDate(locale, bookDate))
    ensures SplitRange(BookingDateRange(locale, bookDate, purchaseDate))
            == Some((FormatDate(locale, bookDate), FormatDate(locale, purchaseDate)))
  {
    SplitRangeOfJoin(FormatDate(locale, bookDate), FormatDate(locale, purchaseDate));
  }

  /** Splitting "<head> to <tail>" gives back `head` and `tail` when `head` does not contain " to". */
  lemma {:induction false} SplitRangeOfJoin(head: string, tail: string)
    requires !MentionsTo(head)
    ensures SplitRange(head + RANGE_SEPARATOR + tail) == Some((head, tail))
  {
    var s := head + RANGE_SEPARATOR + tail;
    if head == [] {
      assert s[..4] == RANGE_SEPARATOR;
      assert s[4..] == tail;
    } else {
      if |head| >= 3 {
        assert s[..3] == head[..3];
      }
      assert s[..4] != RANGE_SEPARATOR by {
        if |head| == 1 {
          assert s[1] == ' ';
        } else if |head| == 2 {
          assert s[3] == 't';
        } else if |head| == 3 {
          assert s[..3] == head;
        }
      }
      assert !MentionsTo(head[1..]);
      assert s[1..] == head[1..] + RANGE_SEPARATOR + tail;
      SplitRangeOfJoin(head[1..], tail);
      assert [s[0]] + head[1..] == head;
    }
  }

  /** The sentinel can be told apart from every rendered date when the renderer never produces it. */
  lemma AbsentLabelIsDistinct(locale: int -> string, date: DateInput)
    requires forall day :: locale(day) != NOT_SPECIFIED
    ensures FormatDate(locale, date) == NOT_SPECIFIED <==> date.Absent?
  {
  }
}
