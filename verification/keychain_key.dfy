/** The keys under which the app stores values in the keychain, and the
    raw string each stands for. */
module KeychainKeys {

  datatype KeychainKey = UserId | AuthProvider | ReceiverPhoneE164 | DeliveryAddress | Custom(key: string)

  /** `rawValue`: a fixed string per named key; a custom key is its own
      string. */
  function RawValue(k: KeychainKey): (s: string)
    ensures k.Custom? ==> s == k.key
  {
    match k
    case UserId => "auth.userId"
    case AuthProvider => "auth.provider"
    case ReceiverPhoneE164 => "checkout.receiverPhoneE164"
    case DeliveryAddress => "checkout.deliveryAddress"
    case Custom(key) => key
  }

  /** The named keys live under the auth and checkout prefixes. */
  lemma NamedKeyPrefixes()
    ensures RawValue(UserId)[..5] == "auth." && RawValue(AuthProvider)[..5] == "auth."
    ensures RawValue(ReceiverPhoneE164)[..9] == "checkout." && RawValue(DeliveryAddress)[..9] == "checkout."
  {
  }

  /** Two different named keys never share a raw string. */
  lemma NamedKeysDistinct(a: KeychainKey, b: KeychainKey)
    requires !a.Custom? && !b.Custom? && a != b
    ensures RawValue(a) != RawValue(b)
  {
    assert RawValue(UserId)[5] == 'u' && RawValue(AuthProvider)[5] == 'p';
    assert RawValue(ReceiverPhoneE164)[9] == 'r' && RawValue(DeliveryAddress)[9] == 'd';
  }

  /** Only a custom key can collide with another key: two keys with the
      same raw string are equal unless one of them is custom. */
  lemma CollisionNeedsCustom(a: KeychainKey, b: KeychainKey)
    requires RawValue(a) == RawValue(b) && a != b
    ensures a.Custom? || b.Custom?
  {
    if !a.Custom? && !b.Custom? {
      NamedKeysDistinct(a, b);
    }
  }

  /** A custom key may spell a named key's string and then shares its
      storage slot. */
  lemma CustomCanCollide()
    ensures Custom("auth.userId") != UserId && RawValue(Custom("auth.userId")) == RawValue(UserId)
  {
  }
}
