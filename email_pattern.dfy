/**
 * The e-mail regular expression that server/src/models/user.ts and server/src/models/ticket.ts
 * give Mongoose's `match` validator:
 *     /^\w+([\.-]?\w+)*@\w+([\.-]?\w+)*(\.\w{2,3})+$/
 * stated as a predicate on the string. Neither `\w` nor `.` nor `-` is `@`, so a match has
 * exactly one `@`, which splits it into the two halves below.
 */
module EmailPattern {

  /** `\w` */
  predicate IsWordChar(c: char) {
    'a' <= c <= 'z' || 'A' <= c <= 'Z' || '0' <= c <= '9' || c == '_'
  }

  /** `[\.-]` */
  predicate IsJoiner(c: char) {
    c == '.' || c == '-'
  }

  /**
   * `\w+([\.-]?\w+)*`: word characters, where a single dot or dash may stand between two word
   * characters; so the string starts and ends with a word character and no joiner follows a joiner.
   */
  predicate DottedWords(s: string) {
    && |s| > 0
    && IsWordChar(s[0])
    && IsWordChar(s[|s| - 1])
    && (forall i :: 0 <= i < |s| ==> IsWordChar(s[i]) || IsJoiner(s[i]))
    && (forall i :: 0 <= i < |s| - 1 ==> IsJoiner(s[i]) ==> IsWordChar(s[i + 1]))
  }

  /** The last label `\.\w{k}`. */
  predicate EndsInLabel(d: string, k: nat) {
    && |d| >= k + 2
    && d[|d| - k - 1] == '.'
    && forall i :: |d| - k <= i < |d| ==> IsWordChar(d[i])
  }

  /**
   * `\w+([\.-]?\w+)*(\.\w{2,3})+`: a dotted-words string whose last label, after its last dot,
   * has two or three word characters (earlier `\.\w{2,3}` groups are themselves dotted words).
   */
  predicate Domain(d: string) {
    DottedWords(d) && (EndsInLabel(d, 2) || EndsInLabel(d, 3))
  }

  /** The whole pattern. Every character of a match is `\w`, `.`, `-` or `@`. */
  predicate Matches(s: string): (m: bool)
    ensures m ==> forall k :: 0 <= k < |s| ==> IsWordChar(s[k]) || IsJoiner(s[k]) || s[k] == '@'
  {
    exists i :: 0 <= i < |s| && s[i] == '@' && DottedWords(s[..i]) && Domain(s[i + 1..])
  }

  /** A matching address contains exactly one `@`, and both halves are non-empty. */
  lemma SingleAt(s: string, i: nat)
    requires i < |s| && s[i] == '@' && DottedWords(s[..i]) && Domain(s[i + 1..])
    ensures forall j :: 0 <= j < |s| && s[j] == '@' ==> j == i
    ensures 0 < i < |s| - 4
  {
  }

  lemma WordIsDotted(s: string)
    requires |s| > 0 && forall i :: 0 <= i < |s| ==> IsWordChar(s[i])
    ensures DottedWords(s)
  {
  }

  /** Two dotted-words strings joined by one dot or dash are dotted words again. */
  lemma JoinedIsDotted(a: string, sep: char, b: string)
    requires DottedWords(a) && IsJoiner(sep) && DottedWords(b)
    ensures DottedWords(a + [sep] + b)
  {
    var s := a + [sep] + b;
    forall i | 0 <= i < |s| - 1 ensures IsJoiner(s[i]) ==> IsWordChar(s[i + 1]) {
      if i < |a| - 1 {
        assert s[i] == a[i] && s[i + 1] == a[i + 1];
      } else if i == |a| - 1 {
        assert s[i] == a[|a| - 1];
      } else if i == |a| {
        assert s[i + 1] == b[0];
      } else {
        assert s[i] == b[i - |a| - 1] && s[i + 1] == b[i - |a|];
      }
    }
  }

  lemma AcceptsPlainAmazonAddress()
    ensures Matches("john@amazon.com")
  {
    var a := "john@amazon.com";
    WordIsDotted("john");
    WordIsDotted("amazon");
    WordIsDotted("com");
    JoinedIsDotted("amazon", '.', "com");
    assert "amazon" + ['.'] + "com" == "amazon.com";
    assert a[..4] == "john" && a[5..] == "amazon.com";
    assert EndsInLabel("amazon.com", 3);
  }

  lemma AcceptsDottedAmazonAddress()
    ensures Matches("jane.doe@amazon.com")
  {
    var b := "jane.doe@amazon.com";
    WordIsDotted("jane");
    WordIsDotted("doe");
    WordIsDotted("amazon");
    WordIsDotted("com");
    JoinedIsDotted("jane", '.', "doe");
    JoinedIsDotted("amazon", '.', "com");
    assert "jane" + ['.'] + "doe" == "jane.doe";
    assert "amazon" + ['.'] + "com" == "amazon.com";
    assert b[..8] == "jane.doe" && b[9..] == "amazon.com";
    assert EndsInLabel("amazon.com", 3);
  }

  /** A character that is neither a word character nor a joiner before the `@` rules out a match. */
  lemma BadLocalCharRejects(s: string, k: nat, at: nat)
    requires k < at < |s| && s[at] == '@'
    requires !IsWordChar(s[k]) && !IsJoiner(s[k])
    ensures !Matches(s)
  {
    if Matches(s) {
      var i :| 0 <= i < |s| && s[i] == '@' && DottedWords(s[..i]) && Domain(s[i + 1..]);
      SingleAt(s, i);
    }
  }

  lemma RejectsPlusInLocalPart()
    ensures !Matches("user+tag@amazon.com")
  {
    var a := "user+tag@amazon.com";
    assert a[4] == '+' && a[8] == '@';
    BadLocalCharRejects(a, 4, 8);
  }

  /** No address with a `+` anywhere in it matches (so no plus-addressed mailbox does). */
  lemma {:induction false} RejectsPlus(s: string)
    requires '+' in s
    ensures !Matches(s)
  {
    var k :| 0 <= k < |s| && s[k] == '+';
    assert !IsWordChar(s[k]) && !IsJoiner(s[k]) && s[k] != '@';
  }

  lemma RejectsEmptyDomain()
    ensures !Matches("john@")
  {
    var b := "john@";
    if Matches(b) {
      var i :| 0 <= i < |b| && b[i] == '@' && DottedWords(b[..i]) && Domain(b[i + 1..]);
      SingleAt(b, i);
      assert false;
    }
  }
}
