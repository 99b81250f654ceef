/**
 * The universe differ: the snapshot's keys minus the blacklist are the
 * eligible tickers, and those the ticker map does not know yet are new.
 */
module Universe {

  /** `(latest - blacklist) - known`: eligible snapshot keys that are not yet mapped. */
  function NewTickers(latest: set<string>, blacklist: set<string>, known: set<string>): (r: set<string>)
    ensures forall k :: k in r <==> k in latest && k !in blacklist && k !in known
  {
    (latest - blacklist) - known
  }

  /** Nothing is onboarded exactly when every eligible snapshot key is already known. */
  lemma NothingNewIffCovered(latest: set<string>, blacklist: set<string>, known: set<string>)
    ensures NewTickers(latest, blacklist, known) == {} <==> latest - blacklist <= known
  {
  }

  /** Growing the known set never adds new tickers. */
  lemma NewTickersAntitone(latest: set<string>, blacklist: set<string>, known: set<string>, known': set<string>)
    requires known <= known'
    ensures NewTickers(latest, blacklist, known') <= NewTickers(latest, blacklist, known)
  {
  }

  /** Snapshot {AAPL, MSFT, ZZZZ}, blacklist {ZZZZ}, known {AAPL}: only MSFT is new. */
  lemma BlacklistExample()
    ensures NewTickers({"AAPL", "MSFT", "ZZZZ"}, {"ZZZZ"}, {"AAPL"}) == {"MSFT"}
  {
  }
}
