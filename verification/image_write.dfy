/** Writing the image to the target disk: what must hold before the first byte, and what does after the last. */
module ImageWrite {
  import opened Bytes
  import opened Wrappers
  import Digest
  import opened ImageStream

  datatype WriteError =
    | BadDigest
    | OpenTarget
    | WrongDevice
    | UnsupportedScheme
    | Http(code: u16)
    | Transport
    | Fetch(error: ImageError)
    | Sync

  /** The opened node, and what the connection answers. */
  datatype Target = Target(capacity: u64, opens: bool, sameDevice: bool, syncs: bool)

  /** A capacity of zero is unknown and bounds nothing. */
  function EffectiveMaxBytes(buildMax: u64, capacity: u64): (r: u64)
    ensures r <= buildMax && (capacity > 0 ==> r <= capacity)
    ensures r == buildMax || (r == capacity && capacity > 0)
  {
    if capacity == 0 || buildMax <= capacity then buildMax else capacity
  }

  /** What stands before the first "://". */
  function SchemeOf(url: string): Option<string> {
    if |url| < 3 then None
    else if url[..3] == "://" then Some("")
    else match SchemeOf(url[1..]) case None => None case Some(rest) => Some([url[0]] + rest)
  }

  function AsciiLower(s: string): string {
    if |s| == 0 then "" else [if 'A' <= s[0] <= 'Z' then (s[0] as int + 32) as char else s[0]] + AsciiLower(s[1..])
  }

  predicate FetchableUrl(url: string) {
    SchemeOf(url).Some? && AsciiLower(SchemeOf(url).value) in {"http", "https"}
  }

  /** `s` begins with `prefix`, which is in lower case, but for the case of its letters. */
  predicate BeginsWith(s: string, prefix: string) {
    |s| >= |prefix| && forall i :: 0 <= i < |prefix| ==> s[i] == prefix[i] || IsUpperOf(s[i], prefix[i])
  }

  predicate IsUpperOf(u: char, l: char) {
    'a' <= l <= 'z' && u as int + 32 == l as int
  }

  /** Exactly the texts that begin with `http://` or `https://`, in any case, are fetched. */
  lemma FetchableIff(url: string)
    ensures FetchableUrl(url) <==> BeginsWith(url, "http://") || BeginsWith(url, "https://")
  {
    if FetchableUrl(url) {
      FetchableBegins(url);
    } else {
      if BeginsWith(url, "http://") {
        SchemeIs(url, 4);
        LowerIs(url[..4], "http");
      }
      if BeginsWith(url, "https://") {
        SchemeIs(url, 5);
        LowerIs(url[..5], "https");
      }
    }
  }

  lemma FetchableBegins(url: string)
    requires FetchableUrl(url)
    ensures BeginsWith(url, "http://") || BeginsWith(url, "https://")
  {
    var scheme := SchemeOf(url).value;
    SchemeStands(url);
    LowerAt(scheme);
    hide SchemeOf, AsciiLower;
    var prefix := AsciiLower(scheme) + "://";
    assert "http" + "://" == "http://" && "https" + "://" == "https://";
    forall i | 0 <= i < |prefix|
      ensures url[i] == prefix[i] || IsUpperOf(url[i], prefix[i])
    {
      if i < |scheme| {
        assert url[..|scheme|][i] == scheme[i];
      } else {
        assert url[|scheme|..|scheme| + 3][i - |scheme|] == "://"[i - |scheme|];
      }
    }
    assert BeginsWith(url, prefix);
  }

  lemma {:induction false} SchemeStands(url: string)
    requires SchemeOf(url).Some?
    ensures var s := SchemeOf(url).value; |s| + 3 <= |url| && url[..|s|] == s && url[|s|..|s| + 3] == "://"
  {
    if url[..3] != "://" {
      SchemeStands(url[1..]);
      var s := SchemeOf(url[1..]).value;
      assert url == [url[0]] + url[1..];
      assert url[..|s| + 1] == [url[0]] + s && url[|s| + 1..|s| + 4] == url[1..][|s|..|s| + 3];
    }
  }

  lemma {:induction false} SchemeIs(url: string, k: nat)
    requires k + 3 <= |url| && url[k..k + 3] == "://" && ':' !in url[..k]
    ensures SchemeOf(url) == Some(url[..k])
  {
    if k > 0 {
      assert url[0] == url[..k][0];
      assert url[1..][k - 1..k + 2] == url[k..k + 3] && url[1..][..k - 1] == url[..k][1..];
      SchemeIs(url[1..], k - 1);
      assert url[..k] == [url[0]] + url[1..][..k - 1];
    }
  }

  lemma {:induction false} LowerAt(s: string)
    ensures |AsciiLower(s)| == |s|
    ensures forall i :: 0 <= i < |s| ==> s[i] == AsciiLower(s)[i] || IsUpperOf(s[i], AsciiLower(s)[i])
  {
    if |s| > 0 {
      LowerAt(s[1..]);
    }
  }

  lemma {:induction false} LowerIs(s: string, l: string)
    requires |s| == |l| && forall i :: 0 <= i < |l| ==> 'a' <= l[i] <= 'z' && (s[i] == l[i] || IsUpperOf(s[i], l[i]))
    ensures AsciiLower(s) == l
  {
    if |s| > 0 {
      LowerIs(s[1..], l[1..]);
      assert l == [l[0]] + l[1..];
    }
  }

  /** The digest that a text prints, if it prints one. */
  ghost function Named(text: string): (r: Option<Sha256>)
    ensures r.Some? ==> |r.value| == Digest.DIGEST_BYTES && Digest.Display(r.value) == text
    ensures r.None? <==> !Digest.Printed(text)
  {
    if digest: Sha256 :| |digest| == Digest.DIGEST_BYTES && Digest.Display(digest) == text then Some(digest) else None
  }

  /**
   What the write comes to when no read and no write fails: each gate in its turn, then the verdict, then the flush.
   */
  ghost function Planned<S>(target: Target, targetDigest: string, url: string, buildMax: u64, status: Option<u16>,
                            body: Body, h: Hash<S>)
    : Result<u64, WriteError>
  {
    match Named(targetDigest)
    case None => Err(BadDigest)
    case Some(digest) =>
      if !target.opens then Err(OpenTarget)
      else if !target.sameDevice then Err(WrongDevice)
      else if !FetchableUrl(url) then Err(UnsupportedScheme)
      else if status.None? then Err(Transport)
      else if !(200 <= status.value < 300) then Err(Http(status.value))
      else
        var verdict := Verdict(body, h, digest, EffectiveMaxBytes(buildMax, target.capacity));
        if verdict.Err? then Err(Fetch(verdict.error)) else if !target.syncs then Err(Sync) else Ok(verdict.value)
  }

  /** Nothing has been read or written yet. */
  ghost predicate Untouched(reader: Reader, sink: Sink)
    reads reader, sink
  {
    reader.pos == 0 && !reader.Failed() && !sink.Failed() && sink.written == []
  }

  /** `status` is the answer to the GET, None for a transport failure. */
  method WriteImage<S(!new)>(target: Target, targetDigest: string, url: string, buildMax: u64, status: Option<u16>,
                             reader: Reader, h: Hash<S>, sink: Sink)
    returns (r: Result<u64, WriteError>)
    requires Untouched(reader, sink) && Incremental(h)
    modifies reader, sink
    // The outcome is the planned one, unless reading or writing failed.
    ensures !reader.Failed() && !sink.Failed() ==>
              r == Planned(target, targetDigest, url, buildMax, status, reader.body, h)
    ensures reader.Failed() ==> r == Err(Fetch(ReadFailed))
    ensures sink.Failed() ==> r == Err(Fetch(WriteFailed))
    // On success the disk gained exactly what passed the gate.
    ensures r.Ok? ==> sink.written == Slice(reader.body, 0, r.value)
    ensures r.Ok? ==> r.value == Seen(reader.body, EffectiveMaxBytes(buildMax, target.capacity))
    ensures r.Ok? ==> !reader.Failed() && !sink.Failed()
    // Whatever happens, the write stays within the disk, and starts only on the verified device.
    ensures target.capacity > 0 ==> |sink.written| <= target.capacity
    ensures sink.written != [] ==> Digest.Printed(targetDigest) && target.opens && target.sameDevice
                                       && FetchableUrl(url) && status.Some? && 200 <= status.value < 300
  {
    hide FetchableUrl, Slice, Digest.Display, Digest.Printed, Verdict;
    var digest := Digest.Parse(targetDigest);
    if digest.Err? {
      return Err(BadDigest);
    }
    NamedIs(targetDigest, digest.value);
    var cap := EffectiveMaxBytes(buildMax, target.capacity);
    if !target.opens {
      return Err(OpenTarget);
    }
    if !target.sameDevice {
      return Err(WrongDevice);
    }
    if !FetchableUrl(url) {
      return Err(UnsupportedScheme);
    }
    if status.None? {
      return Err(Transport);
    }
    if !(200 <= status.value < 300) {
      return Err(Http(status.value));
    }
    var streamed := StreamVerify(reader, h, digest.value, cap, sink);
    WithinBound(reader.body, sink.written, if reader.pos < cap then reader.pos else cap);
    if streamed.Err? {
      return Err(Fetch(streamed.error));
    }
    VerdictCounts(reader.body, h, digest.value, cap);
    assert sink.written == Slice(reader.body, 0, streamed.value);
    if !target.syncs {
      return Err(Sync);
    }
    return Ok(streamed.value);
  }

  lemma NamedIs(text: string, digest: Sha256)
    requires |digest| == Digest.DIGEST_BYTES && Digest.Display(digest) == text
    ensures Named(text) == Some(digest)
  {
    assert Digest.Printed(text);
    Digest.DisplayInjective(Named(text).value, digest);
  }

  lemma WithinBound(body: Body, after: seq<byte>, bound: nat)
    requires GainedWithin(body, [], after, bound)
    ensures |after| <= bound
  {
    hide Slice;
  }

  lemma VerdictCounts<S>(body: Body, h: Hash<S>, expected: Sha256, max: u64)
    requires Verdict(body, h, expected, max).Ok?
    ensures Verdict(body, h, expected, max).value == Seen(body, max)
  {
    hide Slice;
  }
}
