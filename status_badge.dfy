/**
 * client/src/components/StatusBadge.tsx: `getColors`, which picks the badge's Tailwind classes
 * for a priority or status value, ignoring letter case. Only the six spellings it lists get a
 * colour of their own; every other value gets the neutral default.
 */
module StatusBadge {
  import Text
  import TicketModel

  const HIGH := "bg-red-100 text-red-700 border-red-200"
  const MEDIUM := "bg-yellow-100 text-yellow-700 border-yellow-200"
  const LOW := "bg-blue-100 text-blue-700 border-blue-200"
  const OPEN := "bg-green-100 text-green-700 border-green-200"
  const IN_PROGRESS := "bg-purple-100 text-purple-700 border-purple-200"
  const CLOSED := "bg-gray-100 text-gray-500 border-gray-200 line-through"
  const DEFAULT := "bg-gray-100 text-gray-700"

  /** The lower-case values that have a colour of their own. */
  const KNOWN: seq<string> := ["high", "medium", "low", "open", "in-progress", "closed"]

  /** `getColors` */
  function GetColors(val: string): (classes: string)
    ensures classes == DEFAULT <==> Text.Lower(val) !in KNOWN
    ensures classes in [HIGH, MEDIUM, LOW, OPEN, IN_PROGRESS, CLOSED, DEFAULT]
  {
    var v := Text.Lower(val);
    if v == "high" then HIGH
    else if v == "medium" then MEDIUM
    else if v == "low" then LOW
    else if v == "open" then OPEN
    else if v == "in-progress" then IN_PROGRESS
    else if v == "closed" then CLOSED
    else DEFAULT
  }

  /** Two values that differ only in the case of ASCII letters get the same classes. */
  lemma CaseInsensitive(a: string, b: string)
    requires Text.Lower(a) == Text.Lower(b)
    ensures GetColors(a) == GetColors(b)
  {
  }

  /** In particular a value and its lower-cased form look the same. */
  lemma {:induction false} LowerCasedLooksTheSame(s: string)
    ensures GetColors(Text.Lower(s)) == GetColors(s)
  {
    Text.LowerIdempotent(s);
    CaseInsensitive(Text.Lower(s), s);
  }

  /** Helper for KnownValuesAreDistinct: the colours are told apart by their lengths, and the two of equal length by their hue. */
  lemma ColourLengths()
    ensures |HIGH| == 38 && |MEDIUM| == 47 && |LOW| == 41 && |OPEN| == 44
    ensures |IN_PROGRESS| == 47 && |CLOSED| == 54 && |DEFAULT| == 25
    ensures MEDIUM[3] == 'y' && IN_PROGRESS[3] == 'p'
  {
  }

  /**
   * Two known values that get the same colour are the same value up to case; with
   * CaseInsensitive, each of the six known values gets a colour of its own.
   */
  lemma {:induction false} KnownValuesAreDistinct(a: string, b: string)
    requires Text.Lower(a) in KNOWN && Text.Lower(b) in KNOWN
    ensures GetColors(a) == GetColors(b) ==> Text.Lower(a) == Text.Lower(b)
  {
    ColourLengths();
  }

  /** Lower-casing is pointwise, so a string is known by its characters. */
  lemma {:induction false} LowerIs(s: string, t: string)
    requires |s| == |t| && forall i :: 0 <= i < |s| ==> Text.LowerChar(s[i]) == t[i]
    ensures Text.Lower(s) == t
  {
  }

  /** The priorities as the client writes them. */
  lemma {:induction false} PriorityColours()
    ensures GetColors("High") == HIGH && GetColors("Medium") == MEDIUM && GetColors("Low") == LOW
  {
    LowerIs("High", "high");
    LowerIs("Medium", "medium");
    LowerIs("Low", "low");
  }

  /** The statuses as the request validator spells them, in any case. */
  lemma {:induction false} StatusColours()
    ensures GetColors("Open") == OPEN && GetColors("CLOSED") == CLOSED
  {
    LowerIs("Open", "open");
    LowerIs("CLOSED", "closed");
  }

  lemma {:induction false} HyphenatedInProgressColour()
    ensures GetColors("In-Progress") == IN_PROGRESS
  {
    LowerIs("In-Progress", "in-progress");
  }

  lemma {:induction false} UnknownIsDefault()
    ensures GetColors("Unknown") == DEFAULT
  {
    LowerIs("Unknown", "unknown");
  }

  /**
   * The ticket schema stores "In Progress", which gets the default colour: the badge knows only
   * the request validator's hyphenated "In-Progress".
   */
  lemma {:induction false} InProgressWithoutColour()
    ensures "In Progress" in TicketModel.STATUSES && GetColors("In Progress") == DEFAULT
  {
    LowerIs("In Progress", "in progress");
    assert "in progress"[2] == ' ';
  }

  /** The ticket schema's "In Review" has no colour of its own either. */
  lemma {:induction false} InReviewWithoutColour()
    ensures "In Review" in TicketModel.STATUSES && GetColors("In Review") == DEFAULT
  {
    LowerIs("In Review", "in review");
  }
}
