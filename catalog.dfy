/**
 * The fixed exhibit catalog of the hunt. Every unlock, screen count and
 * route waypoint is stated against this list.
 */
module Catalog {
  import opened Wrappers

  /** One exhibit; colours, icons and descriptions are presentation only and omitted. */
  datatype Feature = Feature(id: string, name: string, modelPath: string, soundPath: string)

  /** The four exhibits, in catalog order. */
  const FEATURES: seq<Feature> := [
    Feature("bell_47g", "Bell 47G Helicopter", "./assets/models/model1.glb", "./assets/sounds/sound1.mp3"),
    Feature("ellehammer", "Ellehammer Wings", "./assets/models/model2.glb", "./assets/sounds/sound2.mp3"),
    Feature("glenten", "Glenten Engine", "./assets/models/model3.glb", "./assets/sounds/sound3.mp3"),
    Feature("saab", "Saab Aircraft Wheels", "./assets/models/model4.glb", "./assets/sounds/sound4.mp3")
  ]

  /** Catalog lookup by id: the first feature whose id matches, if any. */
  function Find(fs: seq<Feature>, id: string): (r: Option<Feature>)
    ensures r.Some? <==> exists i :: 0 <= i < |fs| && fs[i].id == id
    ensures r.Some? ==> r.value in fs && r.value.id == id
  {
    if fs == [] then None
    else if fs[0].id == id then Some(fs[0])
    else
      var r := Find(fs[1..], id);
      assert r.Some? ==> (exists i :: 0 <= i < |fs[1..]| && fs[1..][i].id == id);
      assert (exists i :: 1 <= i < |fs| && fs[i].id == id) ==> (exists i :: 0 <= i < |fs[1..]| && fs[1..][i].id == id) by {
        if exists i :: 1 <= i < |fs| && fs[i].id == id {
          var i :| 1 <= i < |fs| && fs[i].id == id;
          assert fs[1..][i - 1] == fs[i];
        }
      }
      r
  }

  /** No two exhibits share an id, so a lookup by id is unambiguous. */
  lemma CatalogIdsDistinct()
    ensures forall i, j :: 0 <= i < j < |FEATURES| ==> FEATURES[i].id != FEATURES[j].id
  {
  }
}
