/** Global and local data areas: named elements laid out one after the other,
    each aligned to its element length. */
module DataArea {
  import opened Common
  import opened DataTypes

  /** One variable or parameter: its name, byte position and type. */
  datatype DataElement = DataElement(name: string, position: nat, dtype: DataType)

  /** The space an element occupies: number elements of length bytes each. */
  datatype Extent = Extent(position: nat, length: nat, number: nat)

  /** The first position at or after e that is a multiple of length. */
  function AlignUp(e: nat, length: nat): (p: nat)
    requires length >= 1
    ensures e <= p < e + length && p % length == 0
    ensures e % length == 0 ==> p == e
    ensures e % length != 0 ==> p == e + length - e % length
  {
    var q, r := e / length, e % length;
    if r == 0 then e
    else
      ModUnique(e + (length - r), length, q + 1, 0);
      e + (length - r)
  }

  class Area {
    var elements: map<string, DataElement>
    var endofarea: nat
    var haveNonParameters: bool
    /** Length and count of every element, kept beside the elements. */
    ghost var extents: map<string, Extent>

    ghost predicate Valid()
      reads this
    {
      Layout(elements, extents, endofarea)
    }

    constructor ()
      ensures Valid() && elements == map[] && endofarea == 0 && !haveNonParameters
    {
      elements := map[];
      endofarea := 0;
      haveNonParameters := false;
      extents := map[];
    }

    /** Places a new element at the aligned end of the area. Parameters must
        all come before the first non-parameter, and must not need padding. */
    method Add(name: string, length: nat, number: nat, dtype: DataType, isParameter: bool) returns (r: Result<()>)
      requires Valid() && length >= 1
      modifies this
      ensures Valid()
      ensures name in old(elements) ==> r == Err("Identifier " + name + " already in use")
      ensures name !in old(elements) && isParameter && old(haveNonParameters) ==>
                r == Err("Can not place IN,OUT,IO elements after DATA elements")
      ensures r.Ok? <==> name !in old(elements) && (isParameter ==> !old(haveNonParameters) && old(endofarea) % length == 0)
      ensures r.Err? ==> elements == old(elements) && endofarea == old(endofarea) && extents == old(extents)
      ensures r.Ok? ==> haveNonParameters == (old(haveNonParameters) || !isParameter)
      ensures r.Err? ==> haveNonParameters == old(haveNonParameters)
      ensures r.Ok? ==>
                var p := AlignUp(old(endofarea), length);
                && elements == old(elements)[name := DataElement(name, p, dtype)]
                && endofarea == p + length * number
                && extents == old(extents)[name := Extent(p, length, number)]
    {
      if name in elements {
        return Err("Identifier " + name + " already in use");
      }
      if !isParameter {
        haveNonParameters := true;
      } else if haveNonParameters {
        return Err("Can not place IN,OUT,IO elements after DATA elements");
      }
      if isParameter && endofarea % length != 0 {
        return Err("Can not insert padding for propper alignment. Try to reorder the IO parameters that no padding is necessary");
      }
      Place(name, length, number, dtype);
      r := Ok(());
    }

    /** The placing part of Add: pads the end of the area to the element
        length and puts the element there. */
    method Place(name: string, length: nat, number: nat, dtype: DataType)
      requires Valid() && length >= 1 && name !in elements
      modifies this`elements, this`extents, this`endofarea
      ensures Valid()
      ensures var p := AlignUp(old(endofarea), length);
              && elements == old(elements)[name := DataElement(name, p, dtype)]
              && endofarea == p + length * number
              && extents == old(extents)[name := Extent(p, length, number)]
    {
      Pad(length);
      var e := Extent(endofarea, length, number);
      PlaceKeepsLayout(elements, extents, old(endofarea), endofarea, name, dtype, e);
      elements := elements[name := DataElement(name, endofarea, dtype)];
      extents := extents[name := e];
      endofarea := endofarea + length * number;
    }

    /** Advances the end of the area one byte at a time until it is a
        multiple of length. */
    method Pad(length: nat)
      requires length >= 1
      modifies this`endofarea
      ensures endofarea == AlignUp(old(endofarea), length)
    {
      ghost var q, r0 := endofarea / length, endofarea % length;
      ghost var k := 0;
      assert endofarea == length * q + r0;
      while endofarea % length != 0
        invariant endofarea == length * q + r0 + k && 0 <= k && r0 + k <= length
        invariant r0 + k == length ==> endofarea % length == 0
        invariant r0 == 0 ==> k == 0
        invariant r0 + k < length ==> endofarea % length == r0 + k
        decreases length - r0 - k
      {
        endofarea := endofarea + 1;
        k := k + 1;
        if r0 + k == length {
          ModUnique(endofarea, length, q + 1, 0);
        } else {
          ModUnique(endofarea, length, q, r0 + k);
        }
      }
      if r0 + k < length {
        assert r0 + k == 0;
      }
    }

    function TotalBytes(): (n: nat)
      reads this
      requires Valid()
      ensures forall name :: name in extents ==> extents[name].position + extents[name].length * extents[name].number <= n
    {
      endofarea
    }

    function Get(name: string): (r: Option<DataElement>)
      reads this
      requires Valid()
      ensures r.Some? <==> name in elements
      ensures r.Some? ==> r.value == elements[name] && r.value.name == name
    {
      if name in elements then Some(elements[name]) else None
    }
  }

  /** Two extents share no byte. */
  predicate Disjoint(a: Extent, b: Extent)
  {
    a.position + a.length * a.number <= b.position || b.position + b.length * b.number <= a.position
  }

  /** The elements are keyed by their names, sit at their extents, which are
      aligned, end within the area and do not overlap. */
  ghost predicate Layout(elements: map<string, DataElement>, extents: map<string, Extent>, end: nat)
  {
    && elements.Keys == extents.Keys
    && (forall n :: n in elements ==>
          && elements[n].name == n
          && elements[n].position == extents[n].position
          && extents[n].length >= 1
          && extents[n].position % extents[n].length == 0
          && extents[n].position + extents[n].length * extents[n].number <= end)
    && (forall n, m :: n in extents && m in extents && n != m ==> Disjoint(extents[n], extents[m]))
  }

  lemma PlaceKeepsLayout(elements: map<string, DataElement>, extents: map<string, Extent>, end: nat, p: nat,
                         name: string, dtype: DataType, e: Extent)
    requires Layout(elements, extents, end) && name !in elements
    requires end <= p && e.position == p && e.length >= 1 && p % e.length == 0
    ensures Layout(elements[name := DataElement(name, p, dtype)], extents[name := e], p + e.length * e.number)
  {
    var el, ex := elements[name := DataElement(name, p, dtype)], extents[name := e];
    var size := e.length * e.number;
    var top := p + size;
    assert top >= end;
    forall n | n in el
      ensures && el[n].name == n && el[n].position == ex[n].position && ex[n].length >= 1
              && ex[n].position % ex[n].length == 0 && ex[n].position + ex[n].length * ex[n].number <= top
    {
      if n != name {
        assert el[n] == elements[n] && ex[n] == extents[n];
      }
    }
    AddKeepsDisjoint(extents, e);
    forall n, m | n in ex && m in ex && n != m
      ensures Disjoint(ex[n], ex[m])
    {
      if n == name {
        assert Disjoint(extents[m], e);
      } else if m == name {
        assert Disjoint(extents[n], e);
      } else {
        assert Disjoint(extents[n], extents[m]);
      }
    }
    assert el.Keys == ex.Keys;
  }

  /** An extent placed at or after the end of every existing one overlaps
      none of them. */
  lemma AddKeepsDisjoint(extents: map<string, Extent>, e: Extent)
    requires forall n :: n in extents ==> extents[n].position + extents[n].length * extents[n].number <= e.position
    ensures forall n :: n in extents ==> Disjoint(extents[n], e)
  {
  }
}
