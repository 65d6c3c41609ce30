/**
 * src/game/world/material.rs: the cache that maps a material's name to the
 * sprite it is drawn with. The source keeps it in a process-wide map
 * behind a lock; here it is one object with a map field.
 */
module WorldMaterial {
  import opened GameWorld

  /** `Mat`: what is known about a material, which is the path of its sprite. */
  datatype Mat = Mat(spr: string)

  /** `PALETTE`: the names of the materials. */
  const Palette: seq<string> := ["apples", "grains", "lumber", "ore", "sheeps"]

  /** The name a material is drawn under: its variant name in lower case (`format!("{:?}", mat).to_lowercase()` in `Grid::draw`). */
  function Name(m: Material): (r: string)
    ensures r == Palette[Discriminant(m)]
  {
    match m
    case Apples => "apples"
    case Grains => "grains"
    case Lumber => "lumber"
    case Ore => "ore"
    case Sheeps => "sheeps"
  }

  /** The palette lists every material once, in declaration order. */
  lemma PaletteIsMaterialNames(m: Material, n: Material)
    ensures |Palette| == 5 && Name(m) in Palette
    ensures Name(m) == Name(n) <==> m == n
  {
  }

  /** The sprite path the cache assigns to a material it has not seen. */
  function SpritePath(mat: string): (r: string)
    ensures |r| == |mat| + 10 && r[..10] == "materials/" && r[10..] == mat
  {
    "materials/" + mat
  }

  /** The cache after `ensure(mat)`: an entry is added for `mat` only if there is none. */
  function Ensured(cache: map<string, Mat>, mat: string): (r: map<string, Mat>)
    ensures mat in r
    ensures r.Keys == cache.Keys + {mat}
    ensures mat in cache ==> r == cache
    ensures mat !in cache ==> r[mat] == Mat(SpritePath(mat))
    ensures forall k :: k in cache ==> r[k] == cache[k]
  {
    if mat in cache then cache else cache[mat := Mat(SpritePath(mat))]
  }

  /** Ensuring twice is ensuring once. */
  lemma EnsureIdempotent(cache: map<string, Mat>, mat: string)
    ensures Ensured(Ensured(cache, mat), mat) == Ensured(cache, mat)
  {
  }

  /** Ensuring different names commutes: the cache does not depend on the order materials are first drawn in. */
  lemma EnsureCommutes(cache: map<string, Mat>, a: string, b: string)
    ensures Ensured(Ensured(cache, a), b) == Ensured(Ensured(cache, b), a)
  {
  }

  /** The `MATS` map. */
  class MaterialCache {
    var mats: map<string, Mat>

    /** `HashMap::with_capacity(10)`: empty. */
    constructor ()
      ensures mats == map[]
    {
      mats := map[];
    }

    /** `ensure(mat)` */
    method Ensure(mat: string)
      modifies this
      ensures mats == Ensured(old(mats), mat)
    {
      if mat !in mats {
        var matData := Mat(SpritePath(mat));
        mats := mats[mat := matData];
      }
    }

    /**
     * `get_img`: the sprite path handed to the asset store for `mat`. The
     * entry is ensured first, so the lookup cannot miss.
     */
    method GetImg(mat: string) returns (spr: string)
      modifies this
      ensures mats == Ensured(old(mats), mat)
      ensures mat in mats && spr == mats[mat].spr
      ensures spr == if mat in old(mats) then old(mats)[mat].spr else SpritePath(mat)
    {
      Ensure(mat);
      spr := mats[mat].spr;
    }
  }
}
