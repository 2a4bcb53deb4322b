/**
  The decisions of updateSystem and canUpdate, taken on the output lines
  and exit codes of the PackageKit commands they run.
 */
module UpdateCheck {
  import opened Wrappers

  /**
    One command as ApiSystem::executeScript runs it: every output line passed
    to the callback, the text it returns as the last line, and the exit code.
   */
  datatype Run = Run(lines: seq<string>, last: string, code: int)

  const NoOfflineUpdates: string := "No offline updates have been prepared"
  const NoUpdatesAvailable: string := "no updates available"
  const UpdateFailed: string := "Update command failed with exit code: "

  /** `pattern` occurs in `line` starting at position `i`. */
  predicate OccursAt(line: string, pattern: string, i: int) {
    0 <= i && i + |pattern| <= |line| && line[i..i + |pattern|] == pattern
  }

  /** `line.find(pattern) != std::string::npos`. */
  function Contains(line: string, pattern: string): (r: bool)
    ensures r <==> exists i :: OccursAt(line, pattern, i)
    decreases |line|
  {
    if |line| < |pattern| then false
    else if line[..|pattern|] == pattern then assert OccursAt(line, pattern, 0); true
    else
      var later := Contains(line[1..], pattern);
      assert later ==> exists i :: OccursAt(line, pattern, i) by {
        if later {
          var i :| OccursAt(line[1..], pattern, i);
          assert line[i + 1..i + 1 + |pattern|] == line[1..][i..i + |pattern|];
          assert OccursAt(line, pattern, i + 1);
        }
      }
      assert (exists i :: OccursAt(line, pattern, i)) ==> later by {
        if exists i :: OccursAt(line, pattern, i) {
          var i :| OccursAt(line, pattern, i);
          assert i != 0;
          assert line[1..][i - 1..i - 1 + |pattern|] == line[i..i + |pattern|];
          assert OccursAt(line[1..], pattern, i - 1);
        }
      }
      later
  }

  /**
    The offline callback's flag after the given lines: it starts true and a
    line that mentions that no offline updates have been prepared clears it.
   */
  function OfflinePrepared(lines: seq<string>): (r: bool)
    ensures r <==> forall k :: 0 <= k < |lines| ==> !Contains(lines[k], NoOfflineUpdates)
  {
    if lines == [] then true
    else
      var before := OfflinePrepared(lines[..|lines| - 1]);
      if Contains(lines[|lines| - 1], NoOfflineUpdates) then false else before
  }

  /**
    The update callback's flag after the given lines: it starts false and
    any line that does not say "no updates available" sets it.
   */
  function UpdatesAvailable(lines: seq<string>): (r: bool)
    ensures r <==> exists k :: 0 <= k < |lines| && !Contains(lines[k], NoUpdatesAvailable)
  {
    if lines == [] then false
    else
      var before := UpdatesAvailable(lines[..|lines| - 1]);
      if !Contains(lines[|lines| - 1], NoUpdatesAvailable) then true else before
  }

  /**
    canUpdate: the offline check must end with 0, 4 or 5 and report that no
    offline update is prepared; then the update listing must end with 0 and
    hold some line other than "no updates available". The second run is
    looked at only when the first lets the check go on.
   */
  function CanUpdate(offline: Run, update: Run): (r: bool)
    ensures r <==>
      && offline.code in {0, 4, 5}
      && (exists k :: 0 <= k < |offline.lines| && Contains(offline.lines[k], NoOfflineUpdates))
      && update.code == 0
      && (exists k :: 0 <= k < |update.lines| && !Contains(update.lines[k], NoUpdatesAvailable))
  {
    var offlineCode := if offline.code == 4 || offline.code == 5 then 0 else offline.code;
    if offlineCode != 0 then false
    else if OfflinePrepared(offline.lines) then false
    else if update.code != 0 then false
    else UpdatesAvailable(update.lines)
  }

  /** The ASCII digit of a value below ten. */
  function Digit(d: nat): (c: char)
    requires d < 10
    ensures '0' <= c <= '9' && c as int - '0' as int == d
  {
    "0123456789"[d]
  }

  predicate AllDigits(s: string) {
    forall k :: 0 <= k < |s| ==> '0' <= s[k] <= '9'
  }

  /** `std::to_string` of a non-negative value: decimal digits, most significant first, no leading zero. */
  function Digits(n: nat): (r: string)
    ensures |r| > 0 && AllDigits(r)
    ensures |r| > 1 ==> r[0] != '0'
  {
    if n < 10 then [Digit(n)] else Digits(n / 10) + [Digit(n % 10)]
  }

  /** `std::to_string` of an int. */
  function DecimalText(n: int): string {
    if n < 0 then "-" + Digits(-n) else Digits(n)
  }

  /** The value of a string of decimal digits. */
  function DigitsValue(s: string): nat
    requires AllDigits(s)
  {
    if s == [] then 0
    else
      assert '0' <= s[|s| - 1] <= '9';
      var d := (s[|s| - 1] as int) - ('0' as int);
      DigitsValue(s[..|s| - 1]) * 10 + d
  }

  /** Reads back an optional minus sign and digits, as a caller of the failure message would. */
  function ParseDecimal(s: string): Option<int> {
    if s == [] then None
    else if s[0] == '-' then
      if |s| > 1 && AllDigits(s[1..]) then Some(0 - DigitsValue(s[1..]) as int) else None
    else if AllDigits(s) then Some(DigitsValue(s))
    else None
  }

  lemma {:induction false} DigitsRoundTrip(n: nat)
    ensures DigitsValue(Digits(n)) == n
  {
    if n >= 10 {
      var s := Digits(n);
      assert s[..|s| - 1] == Digits(n / 10);
      DigitsRoundTrip(n / 10);
    }
  }

  /** The decimal text of an exit code reads back as that code. */
  lemma DecimalRoundTrip(n: int)
    ensures ParseDecimal(DecimalText(n)) == Some(n)
  {
    if n < 0 {
      var digits := Digits(-n);
      assert ("-" + digits)[1..] == digits;
      assert ("-" + digits)[0] == '-';
      DigitsRoundTrip(-n);
    } else {
      var digits := Digits(n);
      assert digits[0] != '-';
      DigitsRoundTrip(n);
    }
  }

  /**
    updateSystem's reply: exit code 5 counts as success; on success the
    last output line comes back with code 0, otherwise a failure message
    naming the code, with the code itself.
   */
  function UpdateSystem(run: Run): (r: (string, int))
    ensures r.1 == 0 <==> run.code == 0 || run.code == 5
    ensures r.1 == 0 ==> r.0 == run.last
    ensures r.1 != 0 ==>
      && r.1 == run.code
      && |r.0| > |UpdateFailed| && r.0[..|UpdateFailed|] == UpdateFailed
      && ParseDecimal(r.0[|UpdateFailed|..]) == Some(run.code)
  {
    var returnCode := if run.code == 5 then 0 else run.code;
    if returnCode != 0 then
      var message := UpdateFailed + DecimalText(returnCode);
      assert message[|UpdateFailed|..] == DecimalText(returnCode);
      DecimalRoundTrip(returnCode);
      (message, returnCode)
    else (run.last, returnCode)
  }
}
