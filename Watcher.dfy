/**
 * The polling loop of `monitor_audio_files` (TTS/tts_player.py:329-392):
 * list the cache directory, play each `.wav` entry not yet processed,
 * remember the ones that played, and trim the remembered set when it grows
 * past 100 names.
 *
 * The directory listing of each poll and the result of `play_audio` for each
 * name are passed in; sleeping and printing are not modelled.
 */
module Watcher {

  /** Above this many names the processed set is trimmed... */
  const MaxProcessed := 100
  /** ...down to this many. */
  const KeptAfterTrim := 50

  /** `name.endswith('.wav')`: a case-sensitive suffix test. */
  predicate IsWav(name: string)
  {
    |name| >= 4 && name[|name| - 4..] == ".wav"
  }

  function ToSet(names: seq<string>): set<string>
  {
    set name | name in names
  }

  predicate Distinct(names: seq<string>)
  {
    forall i, j :: 0 <= i < j < |names| ==> names[i] != names[j]
  }

  /** The `.wav` entries of the listing that are not yet processed. */
  function NewFiles(processed: set<string>, listing: seq<string>): set<string>
  {
    set name | name in listing && IsWav(name) && name !in processed
  }

  /** The dispatched names whose playback succeeded. */
  function Succeeded(dispatched: seq<string>, playback: string -> bool): set<string>
  {
    set name | name in dispatched && playback(name)
  }

  /**
   * `after` is what the trim may leave of `before`: above 100 names, some
   * 50 of them (which ones depends on the set's iteration order, so any 50
   * are allowed); otherwise all of them.
   */
  predicate Trimmed(before: set<string>, after: set<string>)
  {
    if |before| > MaxProcessed then after <= before && |after| == KeptAfterTrim
    else after == before
  }

  /** `set(list(processed_files)[-50:])` when there are more than 100 names. */
  method TrimProcessed(processed: set<string>) returns (kept: set<string>)
    ensures Trimmed(processed, kept)
  {
    if |processed| <= MaxProcessed {
      return processed;
    }
    kept := {};
    var rest := processed;
    while |kept| < KeptAfterTrim
      invariant kept !! rest && kept + rest == processed
      invariant |kept| + |rest| == |processed|
      invariant |kept| <= KeptAfterTrim
      decreases KeptAfterTrim - |kept|
    {
      var name :| name in rest;
      kept := kept + {name};
      rest := rest - {name};
    }
  }

  /**
   * The dispatch loop of one poll: try each new `.wav` name once, in some
   * order, and remember those whose playback succeeded.
   */
  method Dispatch(processed: set<string>, listing: seq<string>, playback: string -> bool)
    returns (dispatched: seq<string>, remembered: set<string>)
    ensures Distinct(dispatched) && ToSet(dispatched) == NewFiles(processed, listing)
    ensures remembered == processed + Succeeded(dispatched, playback)
  {
    var pending := NewFiles(processed, listing);
    remembered := processed;
    dispatched := [];
    while pending != {}
      invariant pending !! ToSet(dispatched)
      invariant pending + ToSet(dispatched) == NewFiles(processed, listing)
      invariant Distinct(dispatched)
      invariant remembered == processed + Succeeded(dispatched, playback)
      decreases pending
    {
      var name :| name in pending;
      pending := pending - {name};
      if playback(name) {
        remembered := remembered + {name};
      }
      AppendOne(dispatched, name, playback);
      dispatched := dispatched + [name];
    }
  }

  /** One directory listing and the outcome `play_audio` would report for each name. */
  datatype Scan = Scan(listing: seq<string>, playback: string -> bool)

  /** The `.wav` names that some scan of the run listed and reported as played. */
  function PlayedIn(scans: seq<Scan>): set<string>
  {
    if scans == [] then {}
    else
      var last := scans[|scans| - 1];
      PlayedIn(scans[..|scans| - 1]) + set name | name in last.listing && IsWav(name) && last.playback(name)
  }

  class DirectoryWatcher {
    var processed: set<string>
    var lastFileCount: int
    /** Every name whose playback has succeeded since the watcher started. */
    ghost var played: set<string>

    ghost predicate Valid()
      reads this
    {
      |processed| <= MaxProcessed && processed <= played
    }

    constructor ()
      ensures Valid()
      ensures processed == {} && lastFileCount == 0 && played == {}
    {
      processed := {};
      lastFileCount := 0;
      played := {};
    }

    /**
     * One iteration of the `while True` loop. Returns the names dispatched to
     * playback, in the order they were tried.
     */
    method Poll(listing: seq<string>, playback: string -> bool) returns (dispatched: seq<string>)
      requires Valid()
      modifies this
      ensures Valid()
      ensures lastFileCount == |ToSet(listing)|
      ensures Distinct(dispatched) && ToSet(dispatched) == NewFiles(old(processed), listing)
      ensures played == old(played) + Succeeded(dispatched, playback)
      ensures Trimmed(old(processed) + Succeeded(dispatched, playback), processed)
    {
      var current := ToSet(listing);
      if |current| != lastFileCount {
        lastFileCount := |current|;
      }
      var remembered;
      dispatched, remembered := Dispatch(processed, listing, playback);
      processed := TrimProcessed(remembered);
      played := played + Succeeded(dispatched, playback);
    }

    /** The watcher loop over a finite run of polls. */
    method Run(scans: seq<Scan>)
      requires Valid()
      modifies this
      ensures Valid()
      ensures old(played) <= played <= old(played) + PlayedIn(scans)
      ensures |scans| > 0 ==> lastFileCount == |ToSet(scans[|scans| - 1].listing)|
    {
      for k := 0 to |scans|
        invariant Valid()
        invariant old(played) <= played <= old(played) + PlayedIn(scans[..k])
        invariant k > 0 ==> lastFileCount == |ToSet(scans[k - 1].listing)|
      {
        var dispatched := Poll(scans[k].listing, scans[k].playback);
        assert scans[..k + 1][..k] == scans[..k];
        forall name | name in Succeeded(dispatched, scans[k].playback)
          ensures name in scans[k].listing && IsWav(name) && scans[k].playback(name)
        {
          assert name in ToSet(dispatched);
        }
      }
      assert scans[..|scans|] == scans;
    }
  }

  /** How the dispatch bookkeeping grows when one more name is tried. */
  lemma AppendOne(dispatched: seq<string>, name: string, playback: string -> bool)
    ensures ToSet(dispatched + [name]) == ToSet(dispatched) + {name}
    ensures Succeeded(dispatched + [name], playback)
         == Succeeded(dispatched, playback) + (if playback(name) then {name} else {})
    ensures Distinct(dispatched) && name !in ToSet(dispatched) ==> Distinct(dispatched + [name])
  {
  }

  // ---------------------------------------------------------------------------
  // Properties

  /**
   * A name passes the suffix test exactly when it is some stem followed by
   * `.wav`; the test is case-sensitive, so no stem followed by `.WAV` passes.
   */
  lemma WavSuffixIsCaseSensitive(name: string, stem: string)
    ensures IsWav(name) <==> exists s :: name == s + ".wav"
    ensures IsWav(stem + ".wav")
    ensures !IsWav(stem + ".WAV")
  {
    if IsWav(name) {
      assert name == name[..|name| - 4] + ".wav";
    }
    forall s | name == s + ".wav"
      ensures IsWav(name)
    {
      assert name[|name| - 4..] == ".wav";
    }
    assert (stem + ".wav")[|stem|..] == ".wav";
    assert (stem + ".WAV")[|stem|..] == ".WAV";
  }

  /**
   * After a poll, a dispatched name is remembered only if it played; a name
   * that failed stays eligible for the next poll, and a remembered name is
   * not dispatched again until a trim drops it.
   */
  lemma PollBookkeeping(before: set<string>, listing: seq<string>, dispatched: seq<string>,
                        playback: string -> bool, after: set<string>)
    requires ToSet(dispatched) == NewFiles(before, listing)
    requires Trimmed(before + Succeeded(dispatched, playback), after)
    ensures forall name :: name in dispatched ==> name !in before && IsWav(name) && name in listing
    ensures forall name :: name in dispatched && !playback(name) ==> name in NewFiles(after, listing)
    ensures forall name :: name in after ==> name in before || (name in dispatched && playback(name))
  {
    forall name | name in dispatched
      ensures name !in before && IsWav(name) && name in listing
    {
      assert name in ToSet(dispatched);
    }
  }
}
