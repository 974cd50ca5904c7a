/**
  auth.go: the decision table of KnownHostsChecker.KnownHostsCheck and the
  checker NewKnownHostCallback builds. Loading the known_hosts files, the
  lookup of the host in them, the two answers read from standard input and
  the append to the first file are foreign: the check receives their results.
*/
module Auth {
  import opened Wrappers
  import opened Errors

  /** A host's public key, as the SSH library represents it. */
  type PublicKey = nat

  /** A known_hosts line: the addresses it covers and the key trusted for them. */
  datatype TrustLine = TrustLine(addresses: seq<string>, key: PublicKey)

  /** The checker: the known_hosts files to consult and whether to ask the user. */
  datatype KnownHostsChecker = KnownHostsChecker(files: seq<string>, interactively: bool)

  /** NewKnownHostCallback: the checker whose KnownHostsCheck becomes the host key callback. */
  function NewKnownHostCallback(interactively: bool, files: seq<string>): (kw: KnownHostsChecker)
    ensures kw.files == files && kw.interactively == interactively
  {
    KnownHostsChecker(files, interactively)
  }

  /**
    What looking the host up in the loaded files gives: a match, a KeyError
    saying the host is not listed, or another rejection (a listed host with a
    different key, a revoked key).
  */
  datatype Lookup = Matched | Unlisted(err: Err) | Rejected(err: Err)

  /** One word read from standard input, or the read's error. */
  datatype Scan = Scanned(word: string) | ScanFailed(err: Err)

  /**
    The outcome of a check: the error returned (None is acceptance), how many
    answers were read, and the line written to the first file, if any.
  */
  datatype Decision = Decision(err: Option<Err>, asked: nat, appended: Option<Append>)

  /** A line appended to a known_hosts file. */
  datatype Append = Append(file: string, line: TrustLine)

  function LowerChar(c: char): char
  {
    if 'A' <= c <= 'Z' then (c as int + ('a' as int - 'A' as int)) as char else c
  }

  /** strings.ToLower on ASCII letters. */
  function ToLower(s: string): (t: string)
    ensures |t| == |s| && forall i | 0 <= i < |s| :: t[i] == LowerChar(s[i])
  {
    if s == [] then [] else [LowerChar(s[0])] + ToLower(s[1..])
  }

  /** The first answer lets the connection go on. */
  predicate Continues(first: Scan)
  {
    first.Scanned? && ToLower(first.word) == "yes"
  }

  /**
    The questions after a successful lookup, as written: the first answer must
    be some casing of "yes" or the host is refused as unknown; a second answer
    that reads cleanly accepts the host, and exactly "yes" also appends it to
    the first file, whose write failure is only reported.
  */
  function Interview(firstFile: string, remote: string, key: PublicKey, first: Scan, second: Scan): (d: Decision)
  {
    if first.ScanFailed? then Decision(Some(first.err), 1, None)
    else if ToLower(first.word) != "yes" then Decision(Some(UnknownHost), 1, None)
    else if second.ScanFailed? then Decision(Some(second.err), 2, None)
    else if ToLower(second.word) == "no" then Decision(None, 2, None)
    else if second.word == "yes" then Decision(None, 2, Some(Append(firstFile, TrustLine([remote], key))))
    else Decision(None, 2, None)
  }

  /**
    KnownHostsCheck as written. `loaded` is the error of parsing the files,
    `lookup` what the parsed files say about the host, `first` and `second`
    the answers, and `written` the error of appending the line (opening the
    file's error shows up here too).
  */
  function KnownHostsCheck(kw: KnownHostsChecker, remote: string, key: PublicKey, loaded: Option<Err>,
                           lookup: Lookup, first: Scan, second: Scan, written: Option<Err>): (d: Decision)
    ensures |kw.files| == 0 ==> d == Decision(Some(NoKnownHostsFile), 0, None)
    ensures |kw.files| > 0 && loaded.Some? ==> d == Decision(loaded, 0, None)
    ensures |kw.files| > 0 && loaded.None? && !lookup.Matched? ==> d == Decision(Some(lookup.err), 0, None)
    ensures d.err.None? <==> && |kw.files| > 0 && loaded.None? && lookup.Matched?
                             && (!kw.interactively || (Continues(first) && second.Scanned?))
    ensures d.appended.Some? <==> && |kw.files| > 0 && loaded.None? && lookup.Matched? && kw.interactively
                                  && Continues(first) && second == Scanned("yes")
    ensures d.appended.Some? ==> d.appended.value == Append(kw.files[0], TrustLine([remote], key)) && d.err.None?
    ensures d.asked > 0 ==> kw.interactively && lookup.Matched?
    ensures && |kw.files| > 0 && loaded.None? && lookup.Matched? && kw.interactively ==>
              && (first.ScanFailed? ==> d == Decision(Some(first.err), 1, None))
              && (first.Scanned? && !Continues(first) ==> d == Decision(Some(UnknownHost), 1, None))
              && (Continues(first) && second.ScanFailed? ==> d == Decision(Some(second.err), 2, None))
  {
    if |kw.files| == 0 then Decision(Some(NoKnownHostsFile), 0, None)
    else if loaded.Some? then Decision(loaded, 0, None)
    else if !lookup.Matched? then Decision(Some(lookup.err), 0, None)
    else if !kw.interactively then Decision(None, 0, None)
    else Interview(kw.files[0], remote, key, first, second)
  }

  /** Writing the line never decides the outcome: a failed append still accepts the host. */
  lemma AppendFailureStillAccepts(kw: KnownHostsChecker, remote: string, key: PublicKey, loaded: Option<Err>,
                                  lookup: Lookup, first: Scan, second: Scan, e: Err)
    ensures KnownHostsCheck(kw, remote, key, loaded, lookup, first, second, Some(e))
         == KnownHostsCheck(kw, remote, key, loaded, lookup, first, second, None)
  {
  }

  /**
    The first known_hosts file after a check: one more line when the check
    wrote one and the write succeeded, unchanged otherwise.
  */
  function FirstFileAfter(lines: seq<TrustLine>, d: Decision, written: Option<Err>): (after: seq<TrustLine>)
    ensures d.appended.Some? && written.None? ==> after == lines + [d.appended.value.line]
    ensures !(d.appended.Some? && written.None?) ==> after == lines
    ensures |after| <= |lines| + 1 && after[..|lines|] == lines
  {
    if d.appended.Some? && written.None? then lines + [d.appended.value.line] else lines
  }

  /**
    A check grows the first file by exactly the line for the remote address
    and key when the user confirmed with "yes" twice (the second time exactly)
    and the write succeeded, and leaves it unchanged otherwise.
  */
  lemma TrustStoreGrowsOnConfirm(kw: KnownHostsChecker, remote: string, key: PublicKey, loaded: Option<Err>,
                                 lookup: Lookup, first: Scan, second: Scan, written: Option<Err>, lines: seq<TrustLine>)
    ensures var d := KnownHostsCheck(kw, remote, key, loaded, lookup, first, second, written);
      var after := FirstFileAfter(lines, d, written);
      && (after == lines + [TrustLine([remote], key)] <==>
            && |kw.files| > 0 && loaded.None? && lookup.Matched? && kw.interactively
            && Continues(first) && second == Scanned("yes") && written.None?)
      && (after != lines ==> d.err.None?)
  {
    var d := KnownHostsCheck(kw, remote, key, loaded, lookup, first, second, written);
    var after := FirstFileAfter(lines, d, written);
    if after == lines + [TrustLine([remote], key)] {
      assert |after| == |lines| + 1;
    }
  }

  /**
    The check prompting "no host key found" as its message says: an unlisted
    host is put to the user when the checker is interactive, while a matched
    host is accepted without questions and a rejected key is refused.
  */
  function KnownHostsCheckIntended(kw: KnownHostsChecker, remote: string, key: PublicKey, loaded: Option<Err>,
                                   lookup: Lookup, first: Scan, second: Scan, written: Option<Err>): (d: Decision)
    ensures d.appended.Some? ==>
              && |kw.files| > 0 && lookup.Unlisted? && kw.interactively
              && d.appended.value == Append(kw.files[0], TrustLine([remote], key))
    ensures d.asked > 0 ==> lookup.Unlisted? && kw.interactively
    ensures |kw.files| == 0 ==> d == Decision(Some(NoKnownHostsFile), 0, None)
    ensures |kw.files| > 0 && loaded.Some? ==> d == Decision(loaded, 0, None)
    ensures |kw.files| > 0 && loaded.None? && lookup.Matched? ==> d == Decision(None, 0, None)
    ensures lookup.Rejected? ==> d.err.Some?
    ensures |kw.files| > 0 && loaded.None? && lookup.Unlisted? && kw.interactively ==>
              d == Interview(kw.files[0], remote, key, first, second)
    ensures |kw.files| > 0 && loaded.None? && lookup.Unlisted? && !kw.interactively ==>
              d == Decision(Some(lookup.err), 0, None)
  {
    if |kw.files| == 0 then Decision(Some(NoKnownHostsFile), 0, None)
    else if loaded.Some? then Decision(loaded, 0, None)
    else if lookup.Matched? then Decision(None, 0, None)
    else if lookup.Rejected? || !kw.interactively then Decision(Some(lookup.err), 0, None)
    else Interview(kw.files[0], remote, key, first, second)
  }

  /** The two checks differ only for an interactive checker. */
  lemma IntendedAgreesWhenNotInteractive(kw: KnownHostsChecker, remote: string, key: PublicKey, loaded: Option<Err>,
                                         lookup: Lookup, first: Scan, second: Scan, written: Option<Err>)
    requires !kw.interactively
    ensures KnownHostsCheckIntended(kw, remote, key, loaded, lookup, first, second, written)
         == KnownHostsCheck(kw, remote, key, loaded, lookup, first, second, written)
  {
  }

  /**
    The discrepancy: an interactive checker asked about a host its files do
    not list refuses it without a question, and asks about a host they do list.
  */
  lemma InteractiveCheckAsksAboutKnownHostsOnly(files: seq<string>, remote: string, key: PublicKey, e: Err)
    requires |files| > 0
    ensures var kw := NewKnownHostCallback(true, files);
      && KnownHostsCheck(kw, remote, key, None, Unlisted(e), Scanned("yes"), Scanned("yes"), None)
           == Decision(Some(e), 0, None)
      && KnownHostsCheck(kw, remote, key, None, Matched, Scanned("yes"), Scanned("yes"), None).asked == 2
      && KnownHostsCheckIntended(kw, remote, key, None, Unlisted(e), Scanned("yes"), Scanned("yes"), None)
           == Decision(None, 2, Some(Append(files[0], TrustLine([remote], key))))
  {
    assert ToLower("yes") == "yes";
  }
}
