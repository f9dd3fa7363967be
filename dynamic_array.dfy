/** The `DynamicArray` template of `dynamic_array_allocator.cpp`: a heap
    buffer with a size and a capacity that doubles when a push finds it full,
    and the push sequence of its `main`. */
module DynamicArrayAllocator {

  /** The default argument of the constructor. */
  const DefaultInitialSize: int := 10

  class DynamicArray<T(0)> {
    var data: array<T>
    var size: int
    var capacity: int

    ghost predicate Valid()
      reads this
    {
      0 <= size <= capacity && capacity == data.Length
    }

    /** The slots below `size`, the ones `getSize()` counts. */
    ghost function Contents(): (s: seq<T>)
      reads this, data
      requires Valid()
      ensures |s| == size
    {
      data[..size]
    }

    /** `DynamicArray(int initialSize = 10)`: size and capacity both start at
        `initialSize`, so a new array already counts `initialSize` slots. */
    constructor (initialSize: int)
      requires initialSize >= 0
      ensures Valid() && fresh(data)
      ensures size == initialSize && capacity == initialSize
    {
      size, capacity := initialSize, initialSize;
      data := new T[initialSize];
    }

    /** `push_back`: a full array is first resized to twice its capacity, then
        the value goes into slot `size`. An array of capacity 0 stays at
        capacity 0 and the write would fall outside the buffer, so the caller
        must not push onto one. */
    method PushBack(value: T)
      requires Valid() && capacity > 0
      modifies this, data
      ensures Valid()
      ensures Contents() == old(Contents()) + [value]
      ensures capacity == if old(size) == old(capacity) then 2 * old(capacity) else old(capacity)
      ensures data == old(data) || fresh(data)
    {
      if size == capacity {
        Resize(capacity * 2);
      }
      data[size] := value;
      size := size + 1;
    }

    /** `resize`: a new buffer of `newCapacity` slots receives the first
        `size` slots; the size is unchanged. */
    method Resize(newCapacity: int)
      requires Valid() && size <= newCapacity
      modifies this
      ensures Valid() && fresh(data)
      ensures size == old(size) && capacity == newCapacity
      ensures Contents() == old(Contents())
    {
      var newData := new T[newCapacity];
      var i := 0;
      while i < size
        modifies newData
        invariant 0 <= i <= size
        invariant newData[..i] == data[..i]
      {
        newData[i] := data[i];
        i := i + 1;
      }
      data := newData;
      capacity := newCapacity;
    }

    /** `operator[]` reads a slot without a bounds check; the model requires
        the slot to be inside the buffer. */
    function At(index: int): (v: T)
      reads this, data
      requires Valid() && 0 <= index < capacity
      ensures index < size ==> v == Contents()[index]
    {
      data[index]
    }

    /** `getSize()`. */
    function GetSize(): (n: int)
      reads this, data
      requires Valid()
      ensures n == |Contents()|
    {
      size
    }
  }

  /** Capacity of a default array after `pushes` pushes. */
  function CapacityAfter(pushes: nat): int {
    if pushes == 0 then 10 else if pushes <= 10 then 20 else 40
  }

  /** `main`'s loop: twenty pushes of `i * 5` onto a default array. The array
      ends with 30 slots in a buffer of 40, and slot `10 + i` holds `5 * i`. */
  method PushTwenty() returns (size: int, capacity: int, slots: seq<int>)
    ensures size == 30 && capacity == 40 && |slots| == 30
    ensures forall i :: 0 <= i < 20 ==> slots[10 + i] == 5 * i
  {
    var myArray := new DynamicArray<int>(DefaultInitialSize);
    var i := 0;
    while i < 20
      invariant 0 <= i <= 20
      invariant fresh(myArray) && fresh(myArray.data) && myArray.Valid()
      invariant myArray.size == 10 + i && myArray.capacity == CapacityAfter(i)
      invariant forall k :: 0 <= k < i ==> myArray.Contents()[10 + k] == 5 * k
    {
      myArray.PushBack(i * 5);
      i := i + 1;
    }
    size, capacity := myArray.GetSize(), myArray.capacity;
    slots := myArray.data[..myArray.size];
  }
}
