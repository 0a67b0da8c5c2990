/**
 * The unlock ledger: the ordered list of unlock keys a visitor has collected.
 * A key is `<id>_<type>` for one channel of an exhibit, or the bare `<id>`
 * (left by the legacy QR form) which stands for both channels.
 */
module Ledger {
  import opened Catalog

  const ModelKind := "model"
  const SoundKind := "sound"

  /** The key `<id>_<kind>`. */
  function ChannelKey(id: string, kind: string): string
  {
    id + "_" + kind
  }

  /** The "is unlocked" rule of every progress screen: the channel key or the bare id is present. */
  predicate Has(ledger: seq<string>, id: string, kind: string)
  {
    ChannelKey(id, kind) in ledger || id in ledger
  }

  predicate NoDuplicates(s: seq<string>)
  {
    forall i, j :: 0 <= i < j < |s| ==> s[i] != s[j]
  }

  /** Append `key` unless it is already exactly present. */
  function Insert(ledger: seq<string>, key: string): (r: seq<string>)
    ensures key in r
    ensures forall k :: k in r <==> k in ledger || k == key
    ensures ledger <= r && |r| <= |ledger| + 1
    ensures key in ledger <==> r == ledger
    ensures NoDuplicates(ledger) ==> NoDuplicates(r)
  {
    if key in ledger then ledger else ledger + [key]
  }

  /** Two keys for the same id and different channels never coincide, and no channel key is a bare id. */
  lemma ChannelKeysDistinct(id: string, kind: string, other: string)
    requires kind != other
    ensures ChannelKey(id, kind) != ChannelKey(id, other)
    ensures ChannelKey(id, kind) != id
  {
    var n := |id| + 1;
    assert ChannelKey(id, kind)[n..] == kind;
    assert ChannelKey(id, other)[n..] == other;
    assert |ChannelKey(id, kind)| > |id|;
  }

  /**
   * Unlocking one channel of an exhibit unlocks that channel and leaves the
   * status of every other channel of the same exhibit as it was.
   */
  lemma UnlockChannelIsolated(ledger: seq<string>, id: string, kind: string, other: string)
    requires kind != other
    ensures Has(Insert(ledger, ChannelKey(id, kind)), id, kind)
    ensures Has(Insert(ledger, ChannelKey(id, kind)), id, other) == Has(ledger, id, other)
  {
    ChannelKeysDistinct(id, kind, other);
  }

  /** A bare id unlocks every channel of its exhibit. */
  lemma BareIdUnlocksEveryChannel(ledger: seq<string>, id: string, kind: string)
    ensures Has(Insert(ledger, id), id, kind)
  {
  }

  /** The debug bulk unlock: for each exhibit in order, insert its model key then its sound key. */
  function UnlockAllKeys(ledger: seq<string>, fs: seq<Feature>): seq<string>
  {
    if fs == [] then ledger
    else
      var f := fs[|fs| - 1];
      Insert(Insert(UnlockAllKeys(ledger, fs[..|fs| - 1]), ChannelKey(f.id, ModelKind)), ChannelKey(f.id, SoundKind))
  }

  /** One more exhibit: its model key, then its sound key, each added unless present. */
  lemma UnlockAllKeysStep(ledger: seq<string>, fs: seq<Feature>, i: nat)
    requires i < |fs|
    ensures UnlockAllKeys(ledger, fs[..i + 1]) ==
              Insert(Insert(UnlockAllKeys(ledger, fs[..i]), ChannelKey(fs[i].id, ModelKind)), ChannelKey(fs[i].id, SoundKind))
  {
    assert fs[..i + 1][..i] == fs[..i];
  }

  /**
   * The bulk unlock only appends, adds nothing but channel keys of the given
   * exhibits, leaves every channel of every exhibit unlocked and keeps a
   * duplicate-free ledger duplicate-free.
   */
  lemma {:induction false} UnlockAllKeysCovers(ledger: seq<string>, fs: seq<Feature>)
    ensures ledger <= UnlockAllKeys(ledger, fs)
    ensures forall f :: f in fs ==>
              ChannelKey(f.id, ModelKind) in UnlockAllKeys(ledger, fs) && ChannelKey(f.id, SoundKind) in UnlockAllKeys(ledger, fs)
    ensures forall k :: k in UnlockAllKeys(ledger, fs) ==>
              k in ledger || exists f :: f in fs && (k == ChannelKey(f.id, ModelKind) || k == ChannelKey(f.id, SoundKind))
    ensures NoDuplicates(ledger) ==> NoDuplicates(UnlockAllKeys(ledger, fs))
  {
    if fs != [] {
      var init := fs[..|fs| - 1];
      var f := fs[|fs| - 1];
      UnlockAllKeysCovers(ledger, init);
      var mid := UnlockAllKeys(ledger, init);
      var r := UnlockAllKeys(ledger, fs);
      assert r == Insert(Insert(mid, ChannelKey(f.id, ModelKind)), ChannelKey(f.id, SoundKind));
      forall g | g in fs
        ensures ChannelKey(g.id, ModelKind) in r && ChannelKey(g.id, SoundKind) in r
      {
        if g != f {
          assert g in init;
        }
      }
      forall k | k in r
        ensures k in ledger || exists g :: g in fs && (k == ChannelKey(g.id, ModelKind) || k == ChannelKey(g.id, SoundKind))
      {
        if k in mid && k !in ledger {
          var g :| g in init && (k == ChannelKey(g.id, ModelKind) || k == ChannelKey(g.id, SoundKind));
          assert g in fs;
        } else if k !in ledger {
          assert f in fs;
        }
      }
    }
  }
}
